/** Artifact discovery for `deploy`: `collectArtifacts` filters the files met
    by the directory walk, `chooseArtifact` picks one of the candidates, and
    `loadArtifact` rejects an empty path (src/commands/deploy.ts). The walk
    itself is given as the list of files in the order it visits them. */
module Artifacts {
  import opened Basics
  import opened Js

  /** The parts of a parsed `.json` file that the filter looks at. */
  datatype ArtifactJson = ArtifactJson(
    abiIsArray: bool,              // Array.isArray(j.abi)
    hasBytecode: bool,             // j.bytecode is truthy
    contractName: Option<string>)  // j.contractName, None when null or undefined

  /** One file met by the walk: its full path and its content. */
  datatype FileEntry = FileEntry(path: string, json: ArtifactJson)

  /** `{name, file}` as pushed onto the candidate list. */
  datatype Candidate = Candidate(name: string, file: string)

  /** Index just past the last `/` of `path` (0 when there is none). */
  function LastSlashEnd(path: string): (k: nat)
    ensures k <= |path|
    ensures k > 0 ==> path[k - 1] == '/'
    ensures forall i :: k <= i < |path| ==> path[i] != '/'
  {
    if path == [] then 0
    else if path[|path| - 1] == '/' then |path|
    else LastSlashEnd(path[..|path| - 1])
  }

  /** `path.basename(p, '.json')` for the absolute paths the walk builds: the
      last segment, without a `.json` ending unless that is the whole segment. */
  function BaseNameWithoutJson(path: string): string
  {
    var b := path[LastSlashEnd(path)..];
    if EndsWith(b, ".json") && b != ".json" then b[..|b| - 5] else b
  }

  /** `/Mock|Test|Lib/i.test(name)`. */
  predicate IsBlacklisted(name: string)
  {
    IncludesIgnoreCase(name, "Mock") || IncludesIgnoreCase(name, "Test") || IncludesIgnoreCase(name, "Lib")
  }

  /** A `.json` file with an array `abi` and a truthy `bytecode`. */
  predicate IsArtifact(e: FileEntry)
  {
    EndsWith(e.path, ".json") && e.json.abiIsArray && e.json.hasBytecode
  }

  /** `j.contractName ?? path.basename(p, '.json')`. */
  function NameOf(e: FileEntry): string
  {
    match e.json.contractName
    case Some(n) => n
    case None => BaseNameWithoutJson(e.path)
  }

  /** Whether the walk pushes `e`: an artifact whose name is not blacklisted. */
  predicate IsKept(e: FileEntry)
  {
    IsArtifact(e) && !IsBlacklisted(NameOf(e))
  }

  function CandidateOf(e: FileEntry): Candidate
  {
    Candidate(NameOf(e), e.path)
  }

  /** The candidate list the walk builds from `files`, in walk order. */
  function Candidates(files: seq<FileEntry>): seq<Candidate>
  {
    if files == [] then []
    else
      var last := files[|files| - 1];
      Candidates(files[..|files| - 1]) + (if IsKept(last) then [CandidateOf(last)] else [])
  }

  /** `collectArtifacts()`: each visited file that is kept is pushed onto the list. */
  method CollectArtifacts(files: seq<FileEntry>) returns (list: seq<Candidate>)
    ensures list == Candidates(files)
  {
    list := [];
    var i := 0;
    while i < |files|
      invariant 0 <= i <= |files|
      invariant list == Candidates(files[..i])
    {
      var e := files[i];
      if EndsWith(e.path, ".json") {
        if e.json.abiIsArray && e.json.hasBytecode {
          var name := NameOf(e);
          if !IsBlacklisted(name) {
            list := list + [Candidate(name, e.path)];
          }
        }
      }
      assert files[..i + 1][..i] == files[..i];
      i := i + 1;
    }
    assert files[..|files|] == files;
  }

  /** Filtering distributes over concatenation, so the candidate list keeps
      the walk order. */
  lemma {:induction false} CandidatesAppend(a: seq<FileEntry>, b: seq<FileEntry>)
    ensures Candidates(a + b) == Candidates(a) + Candidates(b)
    decreases |b|
  {
    if b == [] {
      assert a + b == a;
    } else {
      var b' := b[..|b| - 1];
      CandidatesAppend(a, b');
      assert (a + b)[..|a + b| - 1] == a + b';
    }
  }

  /** Every candidate comes from an artifact file under its own path, and no
      candidate's name matches the blacklist. */
  lemma {:induction false} CandidatesSound(files: seq<FileEntry>)
    ensures forall c :: c in Candidates(files) ==>
      !IsBlacklisted(c.name) && exists e :: e in files && IsKept(e) && c == CandidateOf(e)
  {
    if files != [] {
      var init := files[..|files| - 1];
      CandidatesSound(init);
      forall c | c in Candidates(files)
        ensures !IsBlacklisted(c.name) && exists e :: e in files && IsKept(e) && c == CandidateOf(e)
      {
        if c in Candidates(init) {
          var e :| e in init && IsKept(e) && c == CandidateOf(e);
          assert e in files;
        } else {
          assert files[|files| - 1] in files;
        }
      }
    }
  }

  /** Every artifact file whose name passes the blacklist becomes a candidate. */
  lemma {:induction false} CandidatesComplete(files: seq<FileEntry>)
    ensures forall e :: e in files && IsKept(e) ==> CandidateOf(e) in Candidates(files)
  {
    if files != [] {
      var init := files[..|files| - 1];
      CandidatesComplete(init);
      forall e | e in files && IsKept(e) ensures CandidateOf(e) in Candidates(files) {
        if e in init {
          assert CandidateOf(e) in Candidates(init);
        } else {
          assert e == files[|files| - 1];
        }
      }
    }
  }

  /** The `.find` predicate: the name equals the hint or the path contains it. */
  predicate Hits(c: Candidate, hint: string)
  {
    c.name == hint || Includes(c.file, hint)
  }

  /** `all.find(...)` from index `i` on: the index of the first hit. */
  function FirstHit(all: seq<Candidate>, hint: string, i: nat): (k: Option<nat>)
    requires i <= |all|
    ensures k.Some? ==> (i <= k.value < |all| && Hits(all[k.value], hint) &&
      forall j :: i <= j < k.value ==> !Hits(all[j], hint))
    ensures k.None? ==> forall j :: i <= j < |all| ==> !Hits(all[j], hint)
    decreases |all| - i
  {
    if i == |all| then None
    else if Hits(all[i], hint) then Some(i)
    else FirstHit(all, hint, i + 1)
  }

  /** The candidate chosen, and whether the user was asked to pick it. */
  datatype Choice = Choice(candidate: Candidate, prompted: bool)

  /** `chooseArtifact`. A truthy hint is looked up first, before the list is
      checked for emptiness; without one, an empty list is an error, a single
      candidate is taken as is, and otherwise the user picks: `pick` is the
      index of the entry the list prompt returns. */
  function ChooseArtifact(all: seq<Candidate>, hint: Option<string>, pick: nat): (r: Result<Choice>)
    requires !Truthy(hint) && |all| > 1 ==> pick < |all|
    ensures Truthy(hint) && r.Ok? ==> (!r.value.prompted &&
      exists k :: 0 <= k < |all| && r.value.candidate == all[k] && Hits(all[k], hint.value) &&
        forall j :: 0 <= j < k ==> !Hits(all[j], hint.value))
    ensures Truthy(hint) && r.Err? ==> r.error == Thrown("Artifact not found for " + hint.value)
    ensures Truthy(hint) ==> (r.Err? <==> forall j :: 0 <= j < |all| ==> !Hits(all[j], hint.value))
    ensures !Truthy(hint) && |all| == 0 ==> r == Err(Thrown("No artifacts found."))
    ensures !Truthy(hint) && |all| == 1 ==> r == Ok(Choice(all[0], false))
    ensures !Truthy(hint) && |all| > 1 ==> r == Ok(Choice(all[pick], true))
  {
    if Truthy(hint) then
      match FirstHit(all, hint.value, 0)
      case Some(k) => Ok(Choice(all[k], false))
      case None => Err(Thrown("Artifact not found for " + hint.value))
    else if |all| == 0 then Err(Thrown("No artifacts found."))
    else if |all| == 1 then Ok(Choice(all[0], false))
    else Ok(Choice(all[pick], true))
  }

  /** `loadArtifact`: the path of the chosen artifact, refused when empty. */
  function LoadArtifactPath(files: seq<FileEntry>, hint: Option<string>, pick: nat): (r: Result<string>)
    requires !Truthy(hint) && |Candidates(files)| > 1 ==> pick < |Candidates(files)|
    ensures var c := ChooseArtifact(Candidates(files), hint, pick);
      c.Err? ==> r == Err(c.error)
    ensures var c := ChooseArtifact(Candidates(files), hint, pick);
      c.Ok? && c.value.candidate.file == "" ==> r == Err(Thrown("No artifact found. Did you compile?"))
    ensures var c := ChooseArtifact(Candidates(files), hint, pick);
      r.Ok? ==> (c.Ok? && r.value == c.value.candidate.file && r.value != "")
    ensures var c := ChooseArtifact(Candidates(files), hint, pick);
      c.Ok? && c.value.candidate.file != "" ==> r == Ok(c.value.candidate.file)
  {
    match ChooseArtifact(Candidates(files), hint, pick)
    case Err(e) => Err(e)
    case Ok(choice) =>
      if choice.candidate.file == "" then Err(Thrown("No artifact found. Did you compile?"))
      else Ok(choice.candidate.file)
  }

  /** The blacklist also applies to hinted names: whatever the hint, the loaded
      file is an artifact whose name passes the blacklist, so a hint naming a
      Mock, Test or Lib contract never selects that contract. */
  lemma LoadedIsNeverBlacklisted(files: seq<FileEntry>, hint: Option<string>, pick: nat)
    requires !Truthy(hint) && |Candidates(files)| > 1 ==> pick < |Candidates(files)|
    ensures var r := LoadArtifactPath(files, hint, pick);
      r.Ok? ==> exists e :: e in files && e.path == r.value && IsArtifact(e) && !IsBlacklisted(NameOf(e))
    ensures var r := ChooseArtifact(Candidates(files), hint, pick);
      Truthy(hint) && IsBlacklisted(hint.value) && r.Ok? ==> r.value.candidate.name != hint.value
  {
    CandidatesSound(files);
    var r := ChooseArtifact(Candidates(files), hint, pick);
    if r.Ok? {
      assert r.value.candidate in Candidates(files);
    }
  }
}
