/** Argument coercion of the `deploy` command: the `BigInt` conversion,
    `parseTupleArg`, and the reconciliation of the JSON `--args` array with
    the constructor's declared inputs (src/commands/deploy.ts). */
module Coerce {
  import opened Basics
  import opened Js

  /** An ABI parameter: its name, its type text (`uint256`, `tuple`, ...) and,
      for a tuple, its component parameters in declaration order. */
  datatype Param = Param(name: string, typ: string, components: seq<Param>)

  /** What coercion hands to the SDK. `Undefined` is JavaScript's `undefined`,
      passed through when a tuple piece is missing. */
  datatype Value =
    | Big(n: int)
    | Bool(b: bool)
    | Text(s: string)
    | Undefined
    | Tuple(items: seq<Value>)

  /* ---------------------------------------------------------------- */
  /*  BigInt(text)                                                     */
  /* ---------------------------------------------------------------- */

  /** Value of a digit character in base 16 or less; 16 for any other character. */
  function DigitValue(c: char): nat
  {
    if '0' <= c <= '9' then c as int - '0' as int
    else if 'a' <= c <= 'f' then c as int - 'a' as int + 10
    else if 'A' <= c <= 'F' then c as int - 'A' as int + 10
    else 16
  }

  predicate IsDigits(s: string, base: nat)
  {
    s != [] && forall i :: 0 <= i < |s| ==> DigitValue(s[i]) < base
  }

  function DigitsValue(s: string, base: nat): nat
  {
    if s == [] then 0 else DigitsValue(s[..|s| - 1], base) * base + DigitValue(s[|s| - 1])
  }

  function Magnitude(text: string, digits: string, base: nat): Result<int>
  {
    if IsDigits(digits, base) then Ok(DigitsValue(digits, base)) else Err(BigIntSyntax(text))
  }

  /** `BigInt(v)` on a string or on `undefined`: surrounding whitespace is
      ignored, the empty text is 0, `0x`/`0o`/`0b` select base 16, 8 or 2
      (unsigned), and a decimal may carry one `+` or `-`. */
  function BigIntOf(v: Option<string>): (r: Result<int>)
    ensures v.None? ==> r == Err(BigIntUndefined)
    ensures v.Some? && Trim(v.value) == [] ==> r == Ok(0)
    ensures r.Err? ==> r.error == BigIntUndefined || r.error == BigIntSyntax(v.value)
  {
    match v
    case None => Err(BigIntUndefined)
    case Some(s) => BigIntOfTrimmed(s, Trim(s))
  }

  /** The literal grammar `BigInt` applies to the trimmed text `t` of `text`. */
  function BigIntOfTrimmed(text: string, t: string): Result<int>
  {
    if t == [] then Ok(0)
    else if |t| >= 2 && t[0] == '0' && (t[1] == 'x' || t[1] == 'X') then Magnitude(text, t[2..], 16)
    else if |t| >= 2 && t[0] == '0' && (t[1] == 'o' || t[1] == 'O') then Magnitude(text, t[2..], 8)
    else if |t| >= 2 && t[0] == '0' && (t[1] == 'b' || t[1] == 'B') then Magnitude(text, t[2..], 2)
    else if t[0] == '-' then
      (match Magnitude(text, t[1..], 10)
       case Ok(m) => Ok(-m)
       case Err(e) => Err(e))
    else if t[0] == '+' then Magnitude(text, t[1..], 10)
    else Magnitude(text, t, 10)
  }

  /** Decimal digits read back as the number they were written from. */
  lemma {:induction false} DecimalRoundTrip(n: nat)
    ensures IsDigits(NatToString(n), 10)
    ensures DigitsValue(NatToString(n), 10) == n
  {
    var s := NatToString(n);
    if n >= 10 {
      DecimalRoundTrip(n / 10);
      assert s[..|s| - 1] == NatToString(n / 10);
    }
  }

  lemma TrimUnspaced(s: string)
    requires forall i :: 0 <= i < |s| ==> !IsSpace(s[i])
    ensures Trim(s) == s
  {
    assert LeadingRun(s, IsSpace) == 0;
    assert s[0..] == s;
    assert TrailingRun(s, IsSpace) == 0;
  }

  /** `BigInt` converts the decimal text of every integer back to exactly that
      integer, however large: no precision is lost. */
  lemma BigIntRoundTrip(i: int)
    ensures BigIntOf(Some(IntToString(i))) == Ok(i)
  {
    var s := IntToString(i);
    if i < 0 {
      NegativeLiteral(i);
    } else {
      DecimalLiteral(i);
    }
    TrimUnspaced(s);
  }

  lemma DecimalLiteral(n: nat)
    ensures forall k :: 0 <= k < |NatToString(n)| ==> !IsSpace(NatToString(n)[k])
    ensures BigIntOfTrimmed(NatToString(n), NatToString(n)) == Ok(n)
  {
    var d := NatToString(n);
    DecimalRoundTrip(n);
    assert |d| >= 2 ==> '0' <= d[1] <= '9';
    assert Magnitude(d, d, 10) == Ok(n);
  }

  lemma NegativeLiteral(i: int)
    requires i < 0
    ensures forall k :: 0 <= k < |IntToString(i)| ==> !IsSpace(IntToString(i)[k])
    ensures BigIntOfTrimmed(IntToString(i), IntToString(i)) == Ok(i)
  {
    var d := NatToString(-i);
    var s := IntToString(i);
    assert s == "-" + d;
    DecimalRoundTrip(-i);
    SignedUnspaced(d);
    assert s[0] == '-' && s[1..] == d;
    assert Magnitude(s, d, 10) == Ok(-i);
  }

  /** A minus sign followed by decimal digits holds no whitespace. */
  lemma SignedUnspaced(d: string)
    requires IsDigits(d, 10)
    ensures forall k :: 0 <= k < |"-" + d| ==> !IsSpace(("-" + d)[k])
  {
    var s := "-" + d;
    forall k | 0 <= k < |s| ensures !IsSpace(s[k]) {
      if k > 0 { assert s[k] == d[k - 1]; }
    }
  }

  /* ---------------------------------------------------------------- */
  /*  parseTupleArg(raw, param)                                        */
  /* ---------------------------------------------------------------- */

  predicate IsOpener(c: char) { c == '[' || c == '(' }

  predicate IsCloserOrSpace(c: char) { c == ']' || c == ')' || IsSpace(c) }

  /** `raw.trim().replace(/^[\[(]/, "").replace(/[\])\s]*$/, "")`: one leading
      bracket goes, then the whole trailing run of closing brackets and spaces. */
  function Clean(raw: string): string
  {
    var t := Trim(raw);
    var u := if t != [] && IsOpener(t[0]) then t[1..] else t;
    u[..|u| - TrailingRun(u, IsCloserOrSpace)]
  }

  /** What `Clean` strips: at most one opening bracket at the front, and at the
      back a run of closers and spaces. */
  lemma CleanSpec(raw: string)
    ensures var t := Trim(raw);
      exists a, b :: 0 <= a <= 1 && a <= b <= |t| && Clean(raw) == t[a..b] &&
                     (a == 1 <==> t != [] && IsOpener(t[0])) &&
                     (forall i :: b <= i < |t| ==> IsCloserOrSpace(t[i]))
  {
    var t := Trim(raw);
    var a := if t != [] && IsOpener(t[0]) then 1 else 0;
    assert Clean(raw) == t[a..][..|t[a..]| - TrailingRun(t[a..], IsCloserOrSpace)];
    RunStrippedSlice(t, a);
  }

  /** Cutting the trailing run off `t[a..]` leaves a slice of `t` followed by closers and spaces. */
  lemma RunStrippedSlice(t: string, a: nat)
    requires a <= |t|
    ensures var b := |t| - TrailingRun(t[a..], IsCloserOrSpace);
      a <= b && t[a..][..|t[a..]| - TrailingRun(t[a..], IsCloserOrSpace)] == t[a..b] &&
      forall i :: b <= i < |t| ==> IsCloserOrSpace(t[i])
  {
    var u := t[a..];
    var b := |t| - TrailingRun(u, IsCloserOrSpace);
    forall i | b <= i < |t| ensures IsCloserOrSpace(t[i]) {
      assert t[i] == u[i - a];
    }
  }

  /** The whole trailing run goes: the cleaned text never ends with a closer or a space. */
  lemma CleanEndsClean(raw: string)
    ensures Clean(raw) != [] ==> !IsCloserOrSpace(Clean(raw)[|Clean(raw)| - 1])
  {
    var t := Trim(raw);
    var u := if t != [] && IsOpener(t[0]) then t[1..] else t;
    assert Clean(raw) == u[..|u| - TrailingRun(u, IsCloserOrSpace)];
    RunStrippedEndsClean(u);
  }

  /** Cutting the trailing run of closers and spaces leaves no closer or space last. */
  lemma RunStrippedEndsClean(u: string)
    ensures var v := u[..|u| - TrailingRun(u, IsCloserOrSpace)];
      v != [] ==> !IsCloserOrSpace(v[|v| - 1])
  {
    var k := |u| - TrailingRun(u, IsCloserOrSpace);
    if k > 0 {
      assert u[..k][k - 1] == u[k - 1];
    }
  }

  lemma CleanWithin(raw: string, c: char)
    ensures c in Clean(raw) ==> c in raw
  {
    var t := Trim(raw);
    var u := if t != [] && IsOpener(t[0]) then t[1..] else t;
    if c in Clean(raw) {
      var i :| 0 <= i < |Clean(raw)| && Clean(raw)[i] == c;
      assert u[i] == c;
      assert c in t;
      TrimWithin(raw, c);
    }
  }

  /** `cleaned.split(",").map((s) => s.trim())`: the flat list of pieces. */
  function Pieces(raw: string): (ps: seq<string>)
    ensures |ps| >= 1
  {
    var parts := Split(Clean(raw), ',');
    seq(|parts|, i requires 0 <= i < |parts| => Trim(parts[i]))
  }

  /** `parts[i]`, which is `undefined` past the end. */
  function Piece(ps: seq<string>, i: nat): Option<string>
  {
    if i < |ps| then Some(ps[i]) else None
  }

  /** Splitting is flat: no piece holds a comma, so a tuple nested inside a
      tuple is handed a single piece and cannot see its own later fields. */
  lemma NestedPieceIsSingle(raw: string, i: nat)
    requires i < |Pieces(raw)|
    ensures ',' !in Pieces(raw)[i]
    ensures |Pieces(Pieces(raw)[i])| == 1
  {
    var parts := Split(Clean(raw), ',');
    SplitPiecesLackSeparator(Clean(raw), ',');
    assert ',' !in parts[i];
    var q := Pieces(raw)[i];
    assert q == Trim(parts[i]);
    TrimWithin(parts[i], ',');
    CleanWithin(q, ',');
    SplitWithoutSeparator(Clean(q), ',');
  }

  predicate IsIntType(typ: string)
  {
    StartsWith(typ, "uint") || StartsWith(typ, "int")
  }

  /** The type classes are tested in order, but an integer type belongs to no other class. */
  lemma IntTypeIsNoOther(typ: string)
    requires IsIntType(typ)
    ensures typ != "bool" && typ != "address" && !StartsWith(typ, "bytes") && !StartsWith(typ, "tuple")
  {
    assert typ[0] == 'u' || typ[0] == 'i';
  }

  lemma TupleTypeIsNotInt(typ: string)
    requires StartsWith(typ, "tuple")
    ensures !IsIntType(typ)
  {
    assert typ[0] == 't';
  }

  /** One step of `param.components!.map(...)`: the piece `v` coerced by the
      component's declared type. */
  function CoerceComponent(v: Option<string>, c: Param): (r: Result<Value>)
    ensures IsIntType(c.typ) ==> (r.Ok? <==> BigIntOf(v).Ok?)
    ensures IsIntType(c.typ) && r.Ok? ==> r.value == Big(BigIntOf(v).value)
    ensures IsIntType(c.typ) && r.Err? ==> r.error == BigIntOf(v).error
    ensures c.typ == "bool" ==> r == Ok(Bool(v == Some("true")))
    ensures c.typ == "address" || StartsWith(c.typ, "bytes") ==>
      r == Ok(if v.Some? then Text(v.value) else Undefined)
    ensures StartsWith(c.typ, "tuple") && v.None? ==> r == Err(TrimUndefined)
    ensures StartsWith(c.typ, "tuple") && r.Ok? ==> r.value.Tuple? && |r.value.items| == |c.components|
    ensures StartsWith(c.typ, "tuple") && v.Some? ==> (r.Ok? <==> ParseTupleArg(v.value, c).Ok?)
    ensures StartsWith(c.typ, "tuple") && v.Some? && r.Ok? ==> r.value == Tuple(ParseTupleArg(v.value, c).value)
    ensures StartsWith(c.typ, "tuple") && v.Some? && r.Err? ==> r.error == ParseTupleArg(v.value, c).error
    ensures (!IsIntType(c.typ) && c.typ != "bool" && c.typ != "address" &&
             !StartsWith(c.typ, "bytes") && !StartsWith(c.typ, "tuple")) ==>
      r == Err(Thrown("Unsupported type " + c.typ))
    decreases c, 3, 0
  {
    if IsIntType(c.typ) then
      IntTypeIsNoOther(c.typ);
      (match BigIntOf(v)
       case Ok(n) => Ok(Big(n))
       case Err(e) => Err(e))
    else if c.typ == "bool" then Ok(Bool(v == Some("true")))
    else if c.typ == "address" || StartsWith(c.typ, "bytes") then
      Ok(if v.Some? then Text(v.value) else Undefined)
    else if StartsWith(c.typ, "tuple") then
      (match v
       case None => Err(TrimUndefined)
       case Some(s) =>
         match ParseTupleArg(s, c)
         case Ok(vs) => Ok(Tuple(vs))
         case Err(e) => Err(e))
    else Err(Thrown("Unsupported type " + c.typ))
  }

  /** What the `param.components!.map(...)` callback does for each component:
      piece `k` coerced by component `k`'s type. */
  function ComponentResults(ps: seq<string>, p: Param): (rs: seq<Result<Value>>)
    ensures |rs| == |p.components|
    decreases p, 1, 0
  {
    seq(|p.components|, k requires 0 <= k < |p.components| =>
      assert p.components[k] in p.components;
      CoerceComponent(Piece(ps, k), p.components[k]))
  }

  /** `parseTupleArg(raw, param)`: one value per declared component (see
      `ParseTupleArgComponents` for which value). */
  function ParseTupleArg(raw: string, p: Param): (r: Result<seq<Value>>)
    ensures r.Ok? ==> |r.value| == |p.components|
    decreases p, 2, 0
  {
    MapOrThrow(ComponentResults(Pieces(raw), p))
  }

  /** `parseTupleArg` returns, in component order, the coercion of the piece at
      each component's index by that component's type; or, if some component
      throws, the error of the first one that does. */
  lemma ParseTupleArgComponents(raw: string, p: Param)
    ensures var r := ParseTupleArg(raw, p);
      r.Ok? ==> (|r.value| == |p.components| &&
        forall k :: 0 <= k < |p.components| ==>
          CoerceComponent(Piece(Pieces(raw), k), p.components[k]) == Ok(r.value[k]))
    ensures var r := ParseTupleArg(raw, p);
      r.Err? ==> exists k :: (0 <= k < |p.components| &&
        CoerceComponent(Piece(Pieces(raw), k), p.components[k]) == Err(r.error) &&
        forall j :: 0 <= j < k ==> CoerceComponent(Piece(Pieces(raw), j), p.components[j]).Ok?)
  {
    var rs := ComponentResults(Pieces(raw), p);
    assert forall k :: 0 <= k < |p.components| ==> rs[k] == CoerceComponent(Piece(Pieces(raw), k), p.components[k]);
  }

  /** Because splitting is flat, a tuple nested in a tuple receives one piece:
      when the nested tuple's second field is an integer, that field reads
      `BigInt(undefined)` and `parseTupleArg` throws, whatever the text. */
  lemma NestedTupleLosesSecondField(raw: string, p: Param, i: nat)
    requires i < |p.components|
    requires StartsWith(p.components[i].typ, "tuple")
    requires |p.components[i].components| >= 2
    requires IsIntType(p.components[i].components[1].typ)
    ensures ParseTupleArg(raw, p).Err?
  {
    var c := p.components[i];
    assert c.typ[0] == 't' && c.typ[1] == 'u';
    assert !IsIntType(c.typ) && c.typ != "bool" && c.typ != "address" && !StartsWith(c.typ, "bytes");
    var ps := Pieces(raw);
    if i < |ps| {
      NestedPieceIsSingle(raw, i);
      SinglePieceTupleFails(ps[i], c);
    }
    assert CoerceComponent(Piece(ps, i), c).Err?;
    ParseTupleArgComponents(raw, p);
  }

  lemma SinglePieceTupleFails(q: string, c: Param)
    requires |Pieces(q)| == 1
    requires |c.components| >= 2
    requires IsIntType(c.components[1].typ)
    ensures ParseTupleArg(q, c).Err?
  {
    assert Piece(Pieces(q), 1) == None;
    assert CoerceComponent(Piece(Pieces(q), 1), c.components[1]).Err?;
    ParseTupleArgComponents(q, c);
  }

  /* ---------------------------------------------------------------- */
  /*  Constructor-argument reconciliation in deployContract           */
  /* ---------------------------------------------------------------- */

  /** The constructor arguments handed to the deployment: the parsed JSON array
      unchanged, or the coerced answers to the prompts. */
  datatype CtorArgs<J> = AsSupplied(json: seq<J>) | Prompted(values: seq<Value>)

  /** One `inquirer` input question: the answer key and the message shown. */
  datatype Question = Question(key: string, message: string)

  /** The answer key of the `i`-th constructor input, `arg${idx}`. */
  function ArgKey(i: nat): string
  {
    "arg" + NatToString(i)
  }

  /** `input.name || `arg${idx}``: an empty name falls back to the key. */
  function Label(input: Param, i: nat): string
  {
    if input.name != "" then input.name else ArgKey(i)
  }

  function QuestionFor(input: Param, i: nat): Question
  {
    Question(ArgKey(i),
      "Enter value for constructor parameter \"" + Label(input, i) + "\": (" + input.typ + ")")
  }

  /** Different inputs are asked under different keys, so every prompt gets its own answer. */
  lemma ArgKeysDistinct(i: nat, j: nat)
    requires i != j
    ensures ArgKey(i) != ArgKey(j)
  {
    if ArgKey(i) == ArgKey(j) {
      assert NatToString(i) == ArgKey(i)[3..];
      assert NatToString(j) == ArgKey(j)[3..];
      DecimalRoundTrip(i);
      DecimalRoundTrip(j);
      assert false;
    }
  }

  /** How one prompt answer is coerced: `tuple*` through `parseTupleArg`, then
      `uint*`/`int*` through `BigInt`, anything else kept as the raw text. */
  function CoerceAnswer(raw: Option<string>, input: Param): (r: Result<Value>)
    ensures StartsWith(input.typ, "tuple") && raw.None? ==> r == Err(TrimUndefined)
    ensures StartsWith(input.typ, "tuple") && r.Ok? ==> r.value.Tuple? && |r.value.items| == |input.components|
    ensures StartsWith(input.typ, "tuple") && raw.Some? ==> (r.Ok? <==> ParseTupleArg(raw.value, input).Ok?)
    ensures StartsWith(input.typ, "tuple") && raw.Some? && r.Ok? ==>
      r.value == Tuple(ParseTupleArg(raw.value, input).value)
    ensures StartsWith(input.typ, "tuple") && raw.Some? && r.Err? ==> r.error == ParseTupleArg(raw.value, input).error
    ensures IsIntType(input.typ) ==> (r.Ok? <==> BigIntOf(raw).Ok?)
    ensures IsIntType(input.typ) && r.Ok? ==> r.value == Big(BigIntOf(raw).value)
    ensures IsIntType(input.typ) && r.Err? ==> r.error == BigIntOf(raw).error
    ensures !StartsWith(input.typ, "tuple") && !IsIntType(input.typ) ==>
      r == Ok(if raw.Some? then Text(raw.value) else Undefined)
  {
    if StartsWith(input.typ, "tuple") then
      TupleTypeIsNotInt(input.typ);
      (match raw
       case None => Err(TrimUndefined)
       case Some(s) =>
         match ParseTupleArg(s, input)
         case Ok(vs) => Ok(Tuple(vs))
         case Err(e) => Err(e))
    else if IsIntType(input.typ) then
      IntTypeIsNoOther(input.typ);
      (match BigIntOf(raw)
       case Ok(n) => Ok(Big(n))
       case Err(e) => Err(e))
    else Ok(if raw.Some? then Text(raw.value) else Undefined)
  }

  /** An integer typed as text at the prompt reaches the deployment as exactly
      that integer, with no loss of precision. */
  lemma IntegerAnswerIsExact(input: Param, n: int)
    requires IsIntType(input.typ)
    ensures CoerceAnswer(Some(IntToString(n)), input) == Ok(Big(n))
  {
    assert input.typ[0] == 'u' || input.typ[0] == 'i';
    assert !StartsWith(input.typ, "tuple");
    BigIntRoundTrip(n);
  }

  /** What the `ctorAbi.inputs.map(...)` callback does for each input: the
      answer under its key coerced by the input's type. */
  function AnswerResults(inputs: seq<Param>, answers: map<string, string>): (rs: seq<Result<Value>>)
    ensures |rs| == |inputs|
  {
    seq(|inputs|, i requires 0 <= i < |inputs| => CoerceAnswer(Lookup(answers, ArgKey(i)), inputs[i]))
  }

  /** The coerced constructor arguments: each input's answer coerced in input
      order, or the error of the first answer that fails. */
  lemma CoerceAnswersValues(inputs: seq<Param>, answers: map<string, string>)
    ensures var r := MapOrThrow(AnswerResults(inputs, answers));
      r.Ok? ==> (|r.value| == |inputs| && forall k :: 0 <= k < |inputs| ==>
        CoerceAnswer(Lookup(answers, ArgKey(k)), inputs[k]) == Ok(r.value[k]))
    ensures var r := MapOrThrow(AnswerResults(inputs, answers));
      r.Err? ==> exists k :: (0 <= k < |inputs| &&
        CoerceAnswer(Lookup(answers, ArgKey(k)), inputs[k]) == Err(r.error) &&
        forall j :: 0 <= j < k ==> CoerceAnswer(Lookup(answers, ArgKey(j)), inputs[j]).Ok?)
  {
    var rs := AnswerResults(inputs, answers);
    assert forall k :: 0 <= k < |inputs| ==> rs[k] == CoerceAnswer(Lookup(answers, ArgKey(k)), inputs[k]);
  }

  /** `ctorAbi && Array.isArray(ctorAbi.inputs) && ctorAbi.inputs.length > 0`
      and the supplied array's length differs from the input count.
      `ctorInputs` is None when the ABI has no constructor or its `inputs` is not an array. */
  predicate NeedsPrompt<J>(ctorInputs: Option<seq<Param>>, supplied: seq<J>)
  {
    ctorInputs.Some? && |ctorInputs.value| > 0 && |supplied| != |ctorInputs.value|
  }

  /** The questions put to the user and the constructor arguments that result. */
  datatype Reconciled<J> = Reconciled(asked: seq<Question>, args: Result<CtorArgs<J>>)

  /** The reconciliation in `deployContract`: the parsed `--args` array passes
      through untouched unless the constructor has inputs and the count differs;
      then one question is asked per input and the answers are coerced. */
  function ReconcileArgs<J>(ctorInputs: Option<seq<Param>>, supplied: seq<J>, answers: map<string, string>): (r: Reconciled<J>)
    ensures !NeedsPrompt(ctorInputs, supplied) ==> r.asked == [] && r.args == Ok(AsSupplied(supplied))
    ensures NeedsPrompt(ctorInputs, supplied) ==>
      |r.asked| == |ctorInputs.value| &&
      forall i :: 0 <= i < |r.asked| ==> r.asked[i] == QuestionFor(ctorInputs.value[i], i)
    ensures NeedsPrompt(ctorInputs, supplied) && r.args.Ok? ==>
      r.args.value.Prompted? && |r.args.value.values| == |ctorInputs.value|
  {
    if !NeedsPrompt(ctorInputs, supplied) then Reconciled([], Ok(AsSupplied(supplied)))
    else
      var inputs := ctorInputs.value;
      var asked := seq(|inputs|, i requires 0 <= i < |inputs| => QuestionFor(inputs[i], i));
      match MapOrThrow(AnswerResults(inputs, answers))
      case Ok(vs) => Reconciled(asked, Ok(Prompted(vs)))
      case Err(e) => Reconciled(asked, Err(e))
  }

  /** On a count mismatch each argument is the coerced answer to its own
      question, in input order; an error is that of the first failing answer. */
  lemma ReconciledValues<J>(ctorInputs: Option<seq<Param>>, supplied: seq<J>, answers: map<string, string>)
    requires NeedsPrompt(ctorInputs, supplied)
    ensures var r := ReconcileArgs(ctorInputs, supplied, answers);
      r.args.Ok? ==> forall i :: 0 <= i < |ctorInputs.value| ==>
        CoerceAnswer(Lookup(answers, r.asked[i].key), ctorInputs.value[i]) == Ok(r.args.value.values[i])
    ensures var r := ReconcileArgs(ctorInputs, supplied, answers);
      r.args.Err? ==> exists i :: (0 <= i < |ctorInputs.value| &&
        CoerceAnswer(Lookup(answers, r.asked[i].key), ctorInputs.value[i]) == Err(r.args.error) &&
        forall j :: 0 <= j < i ==> CoerceAnswer(Lookup(answers, r.asked[j].key), ctorInputs.value[j]).Ok?)
  {
    CoerceAnswersValues(ctorInputs.value, answers);
  }
}
