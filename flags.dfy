/** The flag list of the video store: timestamped annotations kept in
    timestamp order, and the merge of dice analysis results into them. */
module FlagStore {
  import opened Wrappers

  datatype FlagType = DiceRoll | MoveComplete

  /** The two dice values of a roll, `[number, number]`. */
  datatype DicePair = DicePair(first: int, second: int)

  datatype FlagAnalysis = FlagAnalysis(dice: Option<DicePair>, confirmed: bool)

  datatype Flag = Flag(id: int, timestamp: real, thumbnail: string, kind: FlagType, analysis: FlagAnalysis)

  /** `Partial<analysis>`: a field holding None is omitted from the patch. */
  datatype AnalysisPatch = AnalysisPatch(dice: Option<Option<DicePair>>, confirmed: Option<bool>)

  predicate Sorted(flags: seq<Flag>)
  {
    forall i, j :: 0 <= i < j < |flags| ==> flags[i].timestamp <= flags[j].timestamp
  }

  // ---------------------------------------------------------------------
  // addFlag

  /** The flag addFlag builds; `id` is the wall-clock reading it takes. */
  function NewFlag(timestamp: real, thumbnail: string, kind: FlagType, id: int): (f: Flag)
    ensures f.timestamp == timestamp && f.thumbnail == thumbnail && f.kind == kind && f.id == id
    ensures f.analysis.dice == None && !f.analysis.confirmed
  {
    Flag(id, timestamp, thumbnail, kind,
         FlagAnalysis(if kind == DiceRoll then None else None, false))
  }

  /** `findIndex(flag => flag.timestamp > t)`: the first flag strictly
      later than `t`, or -1. */
  function FindLater(flags: seq<Flag>, t: real): (r: int)
    ensures -1 <= r < |flags|
    ensures r == -1 <==> forall j :: 0 <= j < |flags| ==> flags[j].timestamp <= t
    ensures r >= 0 ==> flags[r].timestamp > t && forall j :: 0 <= j < r ==> flags[j].timestamp <= t
  {
    if |flags| == 0 then -1
    else if flags[0].timestamp > t then 0
    else
      var r := FindLater(flags[1..], t);
      assert forall j :: 0 < j < |flags| ==> flags[j] == flags[1..][j - 1];
      if r == -1 then -1 else r + 1
  }

  /** Where the new flag lands: before the first later flag, or at the end. */
  function InsertionIndex(flags: seq<Flag>, t: real): (k: nat)
    ensures k <= |flags|
  {
    var r := FindLater(flags, t);
    if r == -1 then |flags| else r
  }

  /** The list after addFlag: push when no flag is later, otherwise splice
      in before the first later one. */
  function Inserted(flags: seq<Flag>, f: Flag): seq<Flag>
  {
    var r := FindLater(flags, f.timestamp);
    if r == -1 then flags + [f] else flags[..r] + [f] + flags[r..]
  }

  /** The new flag sits at the insertion index, the list grows by one, and
      removing the new flag gives back the old list. Every flag before it
      is not later than it, and the one right after it is later. */
  lemma InsertedCorrect(flags: seq<Flag>, f: Flag)
    ensures |Inserted(flags, f)| == |flags| + 1
    ensures Inserted(flags, f)[InsertionIndex(flags, f.timestamp)] == f
    ensures Inserted(flags, f)[..InsertionIndex(flags, f.timestamp)]
            + Inserted(flags, f)[InsertionIndex(flags, f.timestamp) + 1..] == flags
    ensures forall j :: 0 <= j < InsertionIndex(flags, f.timestamp) ==> flags[j].timestamp <= f.timestamp
    ensures InsertionIndex(flags, f.timestamp) < |flags| ==>
            flags[InsertionIndex(flags, f.timestamp)].timestamp > f.timestamp
    ensures multiset(Inserted(flags, f)) == multiset(flags) + multiset{f}
  {
    var k := InsertionIndex(flags, f.timestamp);
    var r := Inserted(flags, f);
    assert r == flags[..k] + [f] + flags[k..];
    assert r[..k] == flags[..k];
    assert r[k + 1..] == flags[k..];
    assert flags == flags[..k] + flags[k..];
  }

  /** Insertion into a sorted list keeps it sorted, and the new flag lands
      after every flag with an equal timestamp: all flags after it are
      strictly later. */
  lemma InsertedSorted(flags: seq<Flag>, f: Flag)
    requires Sorted(flags)
    ensures Sorted(Inserted(flags, f))
    ensures forall j :: InsertionIndex(flags, f.timestamp) < j < |Inserted(flags, f)| ==>
            Inserted(flags, f)[j].timestamp > f.timestamp
  {
    var k := InsertionIndex(flags, f.timestamp);
    var front, back := flags[..k], flags[k..];
    assert Inserted(flags, f) == front + [f] + back;
    forall j | 0 <= j < |back| ensures back[j].timestamp > f.timestamp {
      assert back[j] == flags[k + j];
      assert flags[k].timestamp <= flags[k + j].timestamp;
    }
    SortedJoin(front, f, back);
  }

  lemma SortedJoin(front: seq<Flag>, f: Flag, back: seq<Flag>)
    requires Sorted(front) && Sorted(back)
    requires forall j :: 0 <= j < |front| ==> front[j].timestamp <= f.timestamp
    requires forall j :: 0 <= j < |back| ==> back[j].timestamp > f.timestamp
    ensures Sorted(front + [f] + back)
    ensures forall j :: |front| < j < |front| + 1 + |back| ==> (front + [f] + back)[j].timestamp > f.timestamp
  {
    var r := front + [f] + back;
    var k := |front|;
    forall i, j | 0 <= i < j < |r| ensures r[i].timestamp <= r[j].timestamp {
      if j < k {
        assert r[i] == front[i] && r[j] == front[j];
      } else if j == k {
        assert r[i] == front[i];
      } else if i < k {
        assert r[i] == front[i] && r[j] == back[j - k - 1];
      } else if i == k {
        assert r[j] == back[j - k - 1];
      } else {
        assert r[i] == back[i - k - 1] && r[j] == back[j - k - 1];
      }
    }
    forall j | k < j < |r| ensures r[j].timestamp > f.timestamp {
      assert r[j] == back[j - k - 1];
    }
  }

  // ---------------------------------------------------------------------
  // updateFlagAnalysis

  /** `find(f => f.id === id)`, as an index; -1 when no flag has the id. */
  function FindById(flags: seq<Flag>, id: int): (r: int)
    ensures -1 <= r < |flags|
    ensures r == -1 <==> forall j :: 0 <= j < |flags| ==> flags[j].id != id
    ensures r >= 0 ==> flags[r].id == id && forall j :: 0 <= j < r ==> flags[j].id != id
  {
    if |flags| == 0 then -1
    else if flags[0].id == id then 0
    else
      var r := FindById(flags[1..], id);
      assert forall j :: 0 < j < |flags| ==> flags[j] == flags[1..][j - 1];
      if r == -1 then -1 else r + 1
  }

  /** `{ ...old, ...patch }`: the fields the patch provides win. */
  function Merge(old_: FlagAnalysis, patch: AnalysisPatch): FlagAnalysis
  {
    FlagAnalysis(
      if patch.dice.Some? then patch.dice.value else old_.dice,
      if patch.confirmed.Some? then patch.confirmed.value else old_.confirmed)
  }

  /** Provided fields overwrite, omitted ones keep their value; merging the
      same patch twice is merging it once. */
  lemma MergeCorrect(a: FlagAnalysis, patch: AnalysisPatch)
    ensures patch.dice.Some? ==> Merge(a, patch).dice == patch.dice.value
    ensures patch.dice.None? ==> Merge(a, patch).dice == a.dice
    ensures patch.confirmed.Some? ==> Merge(a, patch).confirmed == patch.confirmed.value
    ensures patch.confirmed.None? ==> Merge(a, patch).confirmed == a.confirmed
    ensures Merge(Merge(a, patch), patch) == Merge(a, patch)
    ensures Merge(a, AnalysisPatch(None, None)) == a
  {
  }

  /** The list after updateFlagAnalysis. */
  function Updated(flags: seq<Flag>, id: int, patch: AnalysisPatch): seq<Flag>
  {
    var k := FindById(flags, id);
    if k == -1 then flags
    else flags[k := flags[k].(analysis := Merge(flags[k].analysis, patch))]
  }

  /** Only the first flag with the id changes, and only its analysis; the
      order of timestamps and ids is untouched; an unknown id changes nothing. */
  lemma UpdatedCorrect(flags: seq<Flag>, id: int, patch: AnalysisPatch)
    ensures |Updated(flags, id, patch)| == |flags|
    ensures forall j :: 0 <= j < |flags| && j != FindById(flags, id) ==> Updated(flags, id, patch)[j] == flags[j]
    ensures forall j :: 0 <= j < |flags| ==>
      Updated(flags, id, patch)[j] == flags[j].(analysis := Updated(flags, id, patch)[j].analysis)
    ensures FindById(flags, id) >= 0 ==>
      Updated(flags, id, patch)[FindById(flags, id)].analysis == Merge(flags[FindById(flags, id)].analysis, patch)
    ensures (forall j :: 0 <= j < |flags| ==> flags[j].id != id) ==> Updated(flags, id, patch) == flags
    ensures Sorted(flags) ==> Sorted(Updated(flags, id, patch))
  {
  }

  // ---------------------------------------------------------------------
  // The store

  class VideoStore {
    var flags: seq<Flag>

    constructor ()
      ensures flags == []
    {
      flags := [];
    }

    /** Builds the new flag (its id is the clock reading `now`) and inserts it. */
    method AddFlag(timestamp: real, thumbnail: string, kind: FlagType, now: int)
      modifies this
      ensures flags == Inserted(old(flags), NewFlag(timestamp, thumbnail, kind, now))
      ensures |flags| == |old(flags)| + 1
      ensures Sorted(old(flags)) ==> Sorted(flags)
    {
      var newFlag := NewFlag(timestamp, thumbnail, kind, now);
      var index := FindLater(flags, timestamp);
      if index == -1 {
        flags := flags + [newFlag];
      } else {
        flags := flags[..index] + [newFlag] + flags[index..];
      }
      InsertedCorrect(old(flags), newFlag);
      if Sorted(old(flags)) {
        InsertedSorted(old(flags), newFlag);
      }
    }

    /** Merges the patch into the analysis of the first flag with the id. */
    method UpdateFlagAnalysis(flagId: int, analysis: AnalysisPatch)
      modifies this
      ensures flags == Updated(old(flags), flagId, analysis)
      ensures Sorted(old(flags)) ==> Sorted(flags)
    {
      var index := FindById(flags, flagId);
      if index >= 0 {
        var flag := flags[index];
        flags := flags[index := flag.(analysis := Merge(flag.analysis, analysis))];
      }
      UpdatedCorrect(old(flags), flagId, analysis);
    }
  }
}
