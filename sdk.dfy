/** The boundary with the blockchain SDK and the network. Everything the SDK
    computes (hashing, ABI encoding, signing) is kept symbolic; what the network
    answers is an input. */
module Sdk {
  import opened Basics

  /** `keccak256(toUtf8Bytes(name))`, kept as an uninterpreted value: two type
      names give the same hash exactly when they are the same name. */
  datatype Bytes32 = TypeHash(name: string)

  /** What `provider.getFeeData()` answers; either field may be null. */
  datatype FeeData = FeeData(maxFeePerGas: Option<nat>, gasPrice: Option<nat>)

  /** What the network answers for one unsigned transaction:
      `provider.estimateGas(tx)` and `provider.getFeeData()`. */
  datatype Quote = Quote(gas: nat, fees: FeeData)

  /** `estimatedGas * (feeData.maxFeePerGas ?? feeData.gasPrice!)` in wei.
      `??` keeps a zero max fee; when both fees are null the BigInt
      multiplication throws a TypeError. */
  function EstimatedCost(q: Quote): (r: Result<nat>)
    ensures q.fees.maxFeePerGas.Some? ==> r == Ok(q.gas * q.fees.maxFeePerGas.value)
    ensures q.fees.maxFeePerGas.None? && q.fees.gasPrice.Some? ==> r == Ok(q.gas * q.fees.gasPrice.value)
    ensures r.Err? <==> q.fees.maxFeePerGas.None? && q.fees.gasPrice.None?
    ensures r.Err? ==> r.error == MixedBigInt
  {
    match Coalesce(q.fees.maxFeePerGas, q.fees.gasPrice)
    case Some(price) => Ok(q.gas * price)
    case None => Err(MixedBigInt)
  }

  /** `ethers.formatUnits(gasPrice, 'gwei')` on a null fee: the SDK's
      BigNumberish check throws before any arithmetic is done. */
  const FormatUnitsOfNull: Error := Sdk("invalid BigNumberish value")
}
