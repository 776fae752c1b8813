/** Listing against access: what readdir and getdents64 show of the GPU directory, and what
    opening the listed name decides. */
module Listing {
  import opened Text
  import opened PathNormalizer
  import opened GpuPaths
  import opened RelativePaths
  import opened DirentFilter

  /** readdir's test of one entry. `ready` stands for an enabled GPU video module with a
      detected topology, `tracked` for the record of the directory's descriptor. */
  predicate ReaddirKeeps(ready: bool, tracked: Option<FdRecord>, allowed: AllowedGpus, name: string) {
    !ready || tracked == None || tracked.value.kind != ProcGpusDir || name == "." || name == ".."
    || AllowsBus(allowed, name)
  }

  /** The entries a caller gets by calling readdir until it returns nothing. */
  function Shown(ready: bool, tracked: Option<FdRecord>, allowed: AllowedGpus, entries: seq<string>): seq<string> {
    if entries == [] then []
    else (if ReaddirKeeps(ready, tracked, allowed, entries[0]) then [entries[0]] else [])
         + Shown(ready, tracked, allowed, entries[1..])
  }

  method ReaddirEntryAllowed(ready: bool, tracked: Option<FdRecord>, allowed: AllowedGpus, name: string)
    returns (keep: bool)
    ensures keep == ReaddirKeeps(ready, tracked, allowed, name)
  {
    if !ready || tracked == None || tracked.value.kind != ProcGpusDir || name == "." || name == ".." {
      return true;
    }
    keep := ContainsBus(allowed, name);
  }

  /** The hook skips hidden entries of the real stream: successive calls return exactly the
      shown entries, in order, and nothing once they are exhausted. */
  method Readdir(ready: bool, tracked: Option<FdRecord>, allowed: AllowedGpus, entries: seq<string>, pos: nat)
    returns (entry: Option<string>, next: nat)
    requires pos <= |entries|
    ensures pos <= next <= |entries| && (entry.Some? ==> pos < next && entry.value == entries[next-1])
    ensures Shown(ready, tracked, allowed, entries[pos..]) ==
            (if entry.Some? then [entry.value] else []) + Shown(ready, tracked, allowed, entries[next..])
    ensures entry == None ==> next == |entries| && Shown(ready, tracked, allowed, entries[pos..]) == []
    ensures entry.Some? ==> ReaddirKeeps(ready, tracked, allowed, entry.value)
    ensures forall k :: pos <= k < next && (entry == None || k < next - 1) ==>
              !ReaddirKeeps(ready, tracked, allowed, entries[k])
  {
    next := pos;
    while next < |entries|
      invariant pos <= next <= |entries|
      invariant forall k :: pos <= k < next ==> !ReaddirKeeps(ready, tracked, allowed, entries[k])
      invariant Shown(ready, tracked, allowed, entries[pos..]) == Shown(ready, tracked, allowed, entries[next..])
    {
      var keep := ReaddirEntryAllowed(ready, tracked, allowed, entries[next]);
      assert entries[next..][1..] == entries[next+1..];
      next := next + 1;
      if keep {
        return Some(entries[next-1]), next;
      }
    }
    assert entries[next..] == [];
    entry := None;
  }

  lemma {:induction false} ShownAt(
    ready: bool, tracked: Option<FdRecord>, allowed: AllowedGpus, entries: seq<string>) returns (at: seq<nat>)
    ensures Selects(entries, at, Shown(ready, tracked, allowed, entries))
    ensures forall i: nat :: i in at <==> i < |entries| && ReaddirKeeps(ready, tracked, allowed, entries[i])
  {
    hide ReaddirKeeps, NextPositions;
    if entries == [] {
      at := [];
    } else {
      var below := ShownAt(ready, tracked, allowed, entries[1..]);
      var keep := ReaddirKeeps(ready, tracked, allowed, entries[0]);
      at := NextPositions(below, keep);
      assert entries == [entries[0]] + entries[1..];
      SelectsCons(entries[0], entries[1..], below, Shown(ready, tracked, allowed, entries[1..]), keep);
      hide Selects;
      forall i: nat
        ensures i in at <==> i < |entries| && ReaddirKeeps(ready, tracked, allowed, entries[i])
      {
        if i > 0 {
          assert i in at <==> i - 1 in below;
        }
      }
    }
  }

  /** A listing shows, in order and each once, every entry but those of the GPU directory, with a
      filter in force, that are neither a dot entry nor an allowed bus. */
  lemma ShownExact(ready: bool, tracked: Option<FdRecord>, allowed: AllowedGpus, entries: seq<string>)
    ensures exists at :: Selects(entries, at, Shown(ready, tracked, allowed, entries)) &&
              forall i: nat :: i in at <==>
                i < |entries| &&
                (ready && tracked.Some? && tracked.value.kind == ProcGpusDir ==>
                   || entries[i] == "." || entries[i] == ".."
                   || (allowed.valid && entries[i] != ""
                       && exists gpu :: gpu in allowed.gpus && gpu.busId == entries[i]))
  {
    hide Selects;
    var at := ShownAt(ready, tracked, allowed, entries);
    forall i: nat | i < |entries|
      ensures (exists gpu :: gpu in allowed.gpus && gpu.busId == entries[i]) <==>
              exists j :: 0 <= j < |allowed.gpus| && allowed.gpus[j].busId == entries[i]
    {
      if gpu :| gpu in allowed.gpus && gpu.busId == entries[i] {
        var j :| 0 <= j < |allowed.gpus| && allowed.gpus[j] == gpu;
      }
    }
  }

  /** Nothing is hidden elsewhere, or before the filter is in force. */
  lemma {:induction false} OtherwiseAllShown(
    ready: bool, tracked: Option<FdRecord>, allowed: AllowedGpus, entries: seq<string>)
    requires !ready || tracked == None || tracked.value.kind != ProcGpusDir
    ensures Shown(ready, tracked, allowed, entries) == entries
    decreases |entries|
  {
    if entries != [] {
      OtherwiseAllShown(ready, tracked, allowed, entries[1..]);
    }
  }

  lemma LocationOfEntry(name: string)
    requires Plain(name)
    ensures Location(BASE + "/" + name) == BASE_SEGMENTS + [name]
    ensures Normalize(BASE + "/" + name, PATH_MAX) ==
            if |BASE| + 1 + |name| < PATH_MAX then Some(BASE + "/" + name) else None
  {
    hide Tokens, Survivors, Walk, BoundedWalk, Join;
    var path, loc := BASE + "/" + name, BASE_SEGMENTS + [name];
    BaseIsJoin();
    TokensOfBase();
    TokensOfChild(BASE, name);
    WalkOfPlain([], loc);
    assert [] + loc == loc;
    WalkIsSurvivors(loc);
    JoinConcat(BASE_SEGMENTS, [name]);
    JoinOfWord(name);
    assert BASE + ("/" + name) == path;
  }

  /** On every name a directory can hold, listing and access agree exactly when the name fits
      the 32-byte bus id field; a longer name is never listed, though its path is ignored by
      the access check. The two listings themselves agree on all names. */
  lemma ListingAgreesWithAccess(record: FdRecord, allowed: AllowedGpus, name: string)
    requires record.kind == ProcGpusDir && allowed.valid && FitsArrays(allowed)
    requires Plain(name)
    ensures var listed := ReaddirKeeps(true, Some(record), allowed, name);
            var denied := Decide(allowed, BASE + "/" + name) == Deny;
            && listed == KeepName(allowed, name)
            && (listed == !denied <==> |name| < BUS_ID_MAX)
  {
    LocationOfEntry(name);
    var loc := BASE_SEGMENTS + [name];
    assert loc[..4] == BASE_SEGMENTS && loc[4] == name && |loc| == 5;
    DecisionByLocation(allowed, BASE + "/" + name);
  }

  /** The same for the information file below a listed name. */
  lemma ListedNameIsReadable(record: FdRecord, allowed: AllowedGpus, name: string)
    requires record.kind == ProcGpusDir && allowed.valid
    requires Plain(name) && |name| < BUS_ID_MAX
    ensures ReaddirKeeps(true, Some(record), allowed, name) <==>
            Decide(allowed, BASE + "/" + name + "/" + INFORMATION) != Deny
  {
    hide Tokens, Survivors, Walk, BoundedWalk, Join, Decide;
    var path, loc := BASE + "/" + name + "/" + INFORMATION, BASE_SEGMENTS + [name] + [INFORMATION];
    BaseIsJoin();
    TokensOfBase();
    TokensOfChild(BASE, name);
    assert Plain(INFORMATION);
    TokensOfChild(BASE + "/" + name, INFORMATION);
    WalkOfPlain([], loc);
    assert [] + loc == loc;
    WalkIsSurvivors(loc);
    JoinConcat(BASE_SEGMENTS, [name]);
    JoinConcat(BASE_SEGMENTS + [name], [INFORMATION]);
    JoinOfWord(name);
    JoinOfWord(INFORMATION);
    assert |Join(loc)| == |BASE| + (1 + |name|) + (1 + |INFORMATION|);
    assert loc[..4] == BASE_SEGMENTS && loc[4] == name && |loc| == 6;
    DecisionByLocation(allowed, path);
  }

  function Names(recs: seq<Record>): seq<string>
    requires AllWellFormed(recs)
  {
    if recs == [] then [] else [Name(recs[0])] + Names(recs[1..])
  }

  /** Reading the whole directory through getdents64 or through readdir shows the same names
      in the same order. */
  lemma {:induction false} GetdentsAgreesWithReaddir(record: FdRecord, allowed: AllowedGpus, recs: seq<Record>)
    requires record.kind == ProcGpusDir && AllWellFormed(recs)
    ensures Names(Kept(allowed, recs)) == Shown(true, Some(record), allowed, Names(recs))
    decreases |recs|
  {
    hide WellFormed, NameAt;
    if recs != [] {
      GetdentsAgreesWithReaddir(record, allowed, recs[1..]);
      assert Names(recs)[1..] == Names(recs[1..]);
      if Keeps(allowed, recs[0]) {
        assert Kept(allowed, recs)[1..] == Kept(allowed, recs[1..]);
      }
    }
  }
}
