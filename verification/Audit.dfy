/**
 The audit log and its rotation.  File 0 is the current file, file `k` the backup numbered
 `k`; a file is a string of bytes, and beside it the records it was written from.
 */
module Audit {
  import opened Base

  type Record = string

  datatype Config = Config(maxBytes: int, maxBackups: int)

  /** The highest backup number in use; a limit that is not positive keeps no backups. */
  function Top(c: Config): nat {
    if c.maxBackups > 0 then c.maxBackups else 0
  }

  /** Records as they stand in a file. */
  function Flat(seg: seq<Record>): string {
    if seg == [] then "" else Flat(seg[..|seg| - 1]) + seg[|seg| - 1]
  }

  function Bytes(seg: seq<Record>): nat {
    |Flat(seg)|
  }

  lemma FlatAppend(seg: seq<Record>, r: Record)
    ensures Flat(seg + [r]) == Flat(seg) + r && Bytes(seg + [r]) == Bytes(seg) + |r|
  {
    assert (seg + [r])[..|seg|] == seg;
  }

  // ---------------------------------------------------------------- rotation

  /** The files after a rotation and before the current file is opened again. */
  function Rotated<T>(m: map<nat, T>, top: nat): map<nat, T> {
    var kept := set k | k in m.Keys && k > top;
    var moved := set k | k in m.Keys && k < top :: k + 1;
    map k | k in kept + moved :: if k > top then m[k] else m[k - 1]
  }

  /** The numbered files up to `top` as a queue, the current file first; a gap is a missing number. */
  function Slots<T>(m: map<nat, T>, top: nat): (q: seq<Option<T>>)
    ensures |q| == top + 1
    ensures forall k :: 0 <= k <= top ==> q[k] == if k in m then Some(m[k]) else None
  {
    seq(top + 1, k requires 0 <= k <= top => if k in m then Some(m[k]) else None)
  }

  /** What is where after the renames, number by number. */
  lemma RotatedAt<T>(m: map<nat, T>, top: nat, k: nat)
    ensures k in Rotated(m, top) <==> if k > top then k in m else k > 0 && k - 1 in m
    ensures k in Rotated(m, top) ==> Rotated(m, top)[k] == if k > top then m[k] else m[k - 1]
  {
    if 0 < k <= top && k - 1 in m {
      var j := k - 1;
      assert j in m.Keys && j < top && k == j + 1;
    }
  }

  /** A rotation pushes an empty file to the front of the queue and drops what falls off its end. */
  lemma RotationPushesFront<T>(m: map<nat, T>, top: nat, newest: T)
    ensures Slots(Rotated(m, top)[0 := newest], top) == [Some(newest)] + Slots(m, top)[..top]
    ensures forall k :: k > top ==> (k in Rotated(m, top) <==> k in m)
  {
    var after, want := Slots(Rotated(m, top)[0 := newest], top), [Some(newest)] + Slots(m, top)[..top];
    forall k | 0 <= k <= top ensures after[k] == want[k] {
      RotatedAt(m, top, k);
    }
    forall k: nat | k > top ensures k in Rotated(m, top) <==> k in m {
      RotatedAt(m, top, k);
    }
  }

  /** One rename of a numbered file to the next number; a missing file stays missing. */
  function Renamed<T>(m: map<nat, T>, i: nat): map<nat, T> {
    if i in m then (m - {i})[i + 1 := m[i]] else m
  }

  /** Half way: numbers above `i + 1` hold their predecessors, `i + 1` is free, the others are as before. */
  ghost predicate RenamedDownTo<T>(before: map<nat, T>, now: map<nat, T>, top: nat, i: nat) {
    forall k: nat {:trigger k in now} ::
      if k > top || k <= i then (k in now <==> k in before) && (k in now ==> now[k] == before[k])
      else if k == i + 1 then k !in now
      else (k in now <==> k - 1 in before) && (k in now ==> now[k] == before[k - 1])
  }

  lemma RenameStep<T>(before: map<nat, T>, now: map<nat, T>, top: nat, i: nat)
    requires RenamedDownTo(before, now, top, i) && 1 <= i < top
    ensures RenamedDownTo(before, Renamed(now, i), top, i - 1)
  {
    assert i in now <==> i in before;
    assert i + 1 !in now;
  }

  lemma RenamesDone<T>(before: map<nat, T>, now: map<nat, T>, top: nat)
    requires RenamedDownTo(before, now, top, 0) && top > 0
    ensures Renamed(now, 0) == Rotated(before, top)
  {
    var done := Renamed(now, 0);
    assert 0 in now <==> 0 in before;
    assert 1 !in now;
    forall k: nat
      ensures k in done <==> k in Rotated(before, top)
      ensures k in done ==> done[k] == Rotated(before, top)[k]
    {
      RotatedAt(before, top, k);
      assert k in now || k !in now;
    }
  }

  // ---------------------------------------------------------------- one record

  /** The files by their records, the tracked size, whether the log is still written, and how often it rotated. */
  datatype Log = Log(segs: map<nat, seq<Record>>, size: int, live: bool, turns: nat)

  predicate Turns(c: Config, l: Log, r: Record) {
    l.live && c.maxBytes > 0 && l.size + |r| > c.maxBytes
  }

  function Append(l: Log, r: Record): Log
    requires 0 in l.segs
  {
    l.(segs := l.segs[0 := l.segs[0] + [r]], size := l.size + |r|)
  }

  /** `Record` on the files; `reopens` says whether the current file could be opened again. */
  function Recorded(c: Config, l: Log, r: Record, reopens: bool): Log
    requires Consistent(l)
  {
    if !l.live then l
    else if !Turns(c, l, r) then Append(l, r)
    else
      var moved := Rotated(l.segs, Top(c));
      if reopens then Append(Log(moved[0 := []], 0, true, l.turns + 1), r)
      else Log(moved, l.size, false, l.turns + 1)
  }

  /** The tracked size is the length of the current file. */
  predicate Consistent(l: Log) {
    l.live ==> 0 in l.segs && l.size == Bytes(l.segs[0])
  }

  /**
   Every number up to the limit holds what its predecessor held, the rest is as it was, and
   there is no current file; where no backups are kept the current file is the only one to go.
   */
  ghost predicate Shifted<T(!new)>(limit: int, m: map<nat, T>, m': map<nat, T>) {
    forall k: nat :: ShiftedAt(limit, m, m', k)
  }

  predicate ShiftedAt<T(==)>(limit: int, m: map<nat, T>, m': map<nat, T>, k: nat) {
    if 1 <= k <= limit then (k in m' <==> k - 1 in m) && (k in m' ==> m'[k] == m[k - 1])
    else if k > 0 then (k in m' <==> k in m) && (k in m' ==> m'[k] == m[k])
    else k !in m'
  }

  /** What one record does to the log, in the terms of its configuration. */
  ghost predicate Records(c: Config, l: Log, l': Log, r: Record, reopens: bool)
    requires Consistent(l)
  {
    if !l.live then l' == l
    else if c.maxBytes <= 0 || Bytes(l.segs[0]) + |r| <= c.maxBytes then
      l'.live && l'.turns == l.turns && l'.segs == l.segs[0 := l.segs[0] + [r]]
    else
      && l'.live == reopens && l'.turns == l.turns + 1
      && Shifted(c.maxBackups, l.segs, l'.segs - {0})
      && (if reopens then 0 in l'.segs && l'.segs[0] == [r] else 0 !in l'.segs)
  }

  lemma RotatedShifts<T(!new)>(m: map<nat, T>, c: Config)
    ensures Shifted(c.maxBackups, m, Rotated(m, Top(c)))
  {
    forall k: nat ensures ShiftedAt(c.maxBackups, m, Rotated(m, Top(c)), k) {
      RotatedAt(m, Top(c), k);
    }
  }

  lemma PutTwice<T>(m: map<nat, T>, a: T, b: T)
    ensures m[0 := a][0 := b] == m[0 := b]
  {
  }

  /** What a rotation followed by a record leaves. */
  lemma TurnRecorded(c: Config, l: Log, r: Record)
    requires Consistent(l) && Turns(c, l, r)
    ensures Recorded(c, l, r, true).segs == Rotated(l.segs, Top(c))[0 := [r]]
  {
    var moved := Rotated(l.segs, Top(c));
    assert [] + [r] == [r];
    PutTwice(moved, [], [r]);
  }

  /** `Recorded` does that, and no more. */
  lemma RecordedMeans(c: Config, l: Log, r: Record, reopens: bool)
    requires Consistent(l)
    ensures Records(c, l, Recorded(c, l, r, reopens), r, reopens)
  {
    RotatedShifts(l.segs, c);
    if Turns(c, l, r) {
      var moved := Rotated(l.segs, Top(c));
      if reopens { TurnRecorded(c, l, r); }
      assert moved - {0} == moved && moved[0 := [r]] - {0} == moved;
    }
  }

  lemma RecordedConsistent(c: Config, l: Log, r: Record, reopens: bool)
    requires Consistent(l)
    ensures Consistent(Recorded(c, l, r, reopens))
  {
    if l.live {
      FlatAppend(l.segs[0], r);
      FlatAppend([], r);
    }
  }

  /** The file that holds these records. */
  function Written(segs: map<nat, seq<Record>>): map<nat, string> {
    map k | k in segs :: Flat(segs[k])
  }

  lemma RotatedWritten(segs: map<nat, seq<Record>>, top: nat)
    ensures Rotated(Written(segs), top) == Written(Rotated(segs, top))
  {
    forall k: nat ensures k in Rotated(Written(segs), top) <==> k in Rotated(segs, top)
      ensures k in Rotated(segs, top) ==> Rotated(Written(segs), top)[k] == Flat(Rotated(segs, top)[k])
    {
      RotatedAt(segs, top, k);
      RotatedAt(Written(segs), top, k);
    }
  }

  class Auditor {
    const config: Config
    var files: map<nat, string>
    var size: int
    var isOpen: bool
    var enabled: bool
    ghost var segs: map<nat, seq<Record>>
    ghost var turns: nat

    ghost predicate Valid()
      reads this
    {
      files == Written(segs) && (enabled ==> isOpen) && Consistent(View())
    }

    ghost function View(): Log
      reads this
    {
      Log(segs, size, enabled && isOpen, turns)
    }

    /** `NewAuditor` on a directory as it was found; `existing` is how its files came about. */
    constructor (config: Config, files: map<nat, string>, ghost existing: map<nat, seq<Record>>)
      requires files == Written(existing)
      ensures Valid() && this.config == config
      ensures View() == Log(if 0 in existing then existing else existing[0 := []], size, true, 0)
    {
      this.config := config;
      this.files := if 0 in files then files else files[0 := ""];
      this.size := if 0 in files then |files[0]| else 0;
      this.isOpen, this.enabled := true, true;
      this.segs := if 0 in existing then existing else existing[0 := []];
      this.turns := 0;
    }

    /** Remove the last backup and rename the others upwards from the highest, or remove the current file. */
    method Shift()
      modifies this`files
      ensures files == Rotated(old(files), Top(config)) && Shifted(config.maxBackups, old(files), files)
    {
      ghost var before := files;
      RotatedShifts(files, config);
      if config.maxBackups > 0 {
        files := files - {config.maxBackups};
        var i := config.maxBackups - 1;
        while i >= 1
          invariant 0 <= i < config.maxBackups
          invariant RenamedDownTo(before, files, config.maxBackups, i)
        {
          RenameStep(before, files, config.maxBackups, i);
          files := Renamed(files, i);
          i := i - 1;
        }
        RenamesDone(before, files, config.maxBackups);
        files := Renamed(files, 0);
      } else {
        files := files - {0};
        assert files == Rotated(before, 0) by {
          forall k: nat
            ensures k in files <==> k in Rotated(before, 0)
            ensures k in files ==> files[k] == Rotated(before, 0)[k]
          {
            RotatedAt(before, 0, k);
          }
        }
      }
    }

    /** `open`, when it succeeds: the file is created if it is missing, and measured. */
    method Open()
      modifies this`files, this`size, this`isOpen
      ensures files == if 0 in old(files) then old(files) else old(files)[0 := ""]
      ensures size == |files[0]| && isOpen
    {
      if 0 !in files {
        files := files[0 := ""];
      }
      size := |files[0]|;
      isOpen := true;
    }

    /** `rotate`: close, shift the files, open again. */
    method Rotate(reopens: bool)
      requires Valid() && enabled
      modifies this
      ensures files == Written(segs) && turns == old(turns) + 1
      ensures enabled == isOpen == reopens
      ensures segs == if reopens then Rotated(old(segs), Top(config))[0 := []] else Rotated(old(segs), Top(config))
      ensures size == if reopens then 0 else old(size)
    {
      isOpen := false;
      RotatedWritten(segs, Top(config));
      Shift();
      RotatedAt(segs, Top(config), 0);
      segs, turns := Rotated(segs, Top(config)), turns + 1;
      assert Written(segs[0 := []]) == files[0 := ""];
      if reopens {
        Open();
        segs := segs[0 := []];
      } else {
        enabled := false;
      }
    }

    /** `Record`, after the event has been encoded. */
    method Record(data: Record, reopens: bool)
      requires Valid()
      modifies this
      ensures Valid() && View() == Recorded(config, old(View()), data, reopens)
      ensures Records(config, old(View()), View(), data, reopens)
    {
      RecordedMeans(config, View(), data, reopens);
      if !enabled || !isOpen {
        return;
      }
      RecordedConsistent(config, View(), data, reopens);
      if config.maxBytes > 0 && size + |data| > config.maxBytes {
        Rotate(reopens);
      }
      if !isOpen {
        return;
      }
      FlatAppend(segs[0], data);
      files := files[0 := files[0] + data];
      segs := segs[0 := segs[0] + [data]];
      size := size + |data|;
    }
  }

  // ---------------------------------------------------------------- what is retained

  function Segment(segs: map<nat, seq<Record>>, k: nat): seq<Record> {
    if k in segs then segs[k] else []
  }

  /** Reading from backup `k` down to the current file. */
  function Retained(segs: map<nat, seq<Record>>, k: nat): seq<Record> {
    Segment(segs, k) + if k == 0 then [] else Retained(segs, k - 1)
  }

  predicate IsSuffix<T(==)>(a: seq<T>, b: seq<T>) {
    |a| <= |b| && a == b[|b| - |a|..]
  }

  lemma SuffixTrans<T>(a: seq<T>, b: seq<T>, c: seq<T>)
    requires IsSuffix(a, b) && IsSuffix(b, c)
    ensures IsSuffix(a, c)
  {
  }

  lemma SuffixAppend<T>(a: seq<T>, b: seq<T>, x: seq<T>)
    requires IsSuffix(a, b)
    ensures IsSuffix(a + x, b + x)
  {
  }

  /** After a rotation, reading down from `k` reads what `k - 1` gave before. */
  lemma {:induction false} RotatedRetained(segs: map<nat, seq<Record>>, top: nat, k: nat)
    requires k <= top
    ensures Retained(Rotated(segs, top), k) == if k == 0 then [] else Retained(segs, k - 1)
  {
    RotatedAt(segs, top, k);
    if k > 0 {
      RotatedRetained(segs, top, k - 1);
    }
  }

  lemma {:induction false} AppendRetained(segs: map<nat, seq<Record>>, r: Record, k: nat)
    requires 0 in segs
    ensures Retained(segs[0 := segs[0] + [r]], k) == Retained(segs, k) + [r]
  {
    if k > 0 {
      AppendRetained(segs, r, k - 1);
    }
  }

  /** What one call adds to the record of everything ever written. */
  function Adds(c: Config, l: Log, r: Record, reopens: bool): seq<Record> {
    if !l.live || (Turns(c, l, r) && !reopens) then [] else [r]
  }

  lemma {:induction false} FirstRetained(segs: map<nat, seq<Record>>, r: Record, k: nat)
    requires 0 !in segs
    ensures Retained(segs[0 := [r]], k) == Retained(segs, k) + [r]
  {
    if k > 0 {
      FirstRetained(segs, r, k - 1);
    }
  }

  lemma TurnRetained(segs: map<nat, seq<Record>>, top: nat, r: Record)
    ensures IsSuffix(Retained(Rotated(segs, top), top), Retained(segs, top))
    ensures IsSuffix(Retained(Rotated(segs, top)[0 := [r]], top), Retained(segs, top) + [r])
  {
    RotatedRetained(segs, top, top);
    RotatedAt(segs, top, 0);
    FirstRetained(Rotated(segs, top), r, top);
    SuffixAppend(Retained(Rotated(segs, top), top), Retained(segs, top), [r]);
  }

  lemma RecordedRetained(c: Config, l: Log, r: Record, reopens: bool)
    requires Consistent(l)
    ensures IsSuffix(Retained(Recorded(c, l, r, reopens).segs, Top(c)),
        Retained(l.segs, Top(c)) + Adds(c, l, r, reopens))
  {
    if !l.live {
    } else if Turns(c, l, r) {
      TurnRetained(l.segs, Top(c), r);
      if reopens { TurnRecorded(c, l, r); }
    } else {
      AppendRetained(l.segs, r, Top(c));
    }
  }

  // ---------------------------------------------------------------- runs

  datatype Event = Event(data: Record, reopens: bool)

  function Run(c: Config, l: Log, events: seq<Event>): (l': Log)
    requires Consistent(l)
    ensures Consistent(l')
  {
    if events == [] then l
    else
      var before := Run(c, l, events[..|events| - 1]);
      var e := events[|events| - 1];
      RecordedConsistent(c, before, e.data, e.reopens);
      Recorded(c, before, e.data, e.reopens)
  }

  /** Everything the run wrote, in order. */
  function AllWritten(c: Config, l: Log, events: seq<Event>): seq<Record>
    requires Consistent(l)
  {
    if events == [] then []
    else
      var e := events[|events| - 1];
      AllWritten(c, l, events[..|events| - 1]) + Adds(c, Run(c, l, events[..|events| - 1]), e.data, e.reopens)
  }

  /** Two steps of a chain of suffixes. */
  lemma SuffixChain<T>(base: seq<T>, before: seq<T>, all: seq<T>, add: seq<T>, last: seq<T>)
    requires IsSuffix(before, base + all) && IsSuffix(last, before + add)
    ensures IsSuffix(last, base + (all + add))
  {
    SuffixAppend(before, base + all, add);
    assert base + (all + add) == base + all + add;
    SuffixTrans(last, before + add, base + all + add);
  }

  /** In every run the files, read from the highest backup to the current one, end everything ever written. */
  lemma {:induction false} RetainedIsSuffix(c: Config, l: Log, events: seq<Event>)
    requires Consistent(l)
    ensures IsSuffix(Retained(Run(c, l, events).segs, Top(c)), Retained(l.segs, Top(c)) + AllWritten(c, l, events))
    decreases |events|
  {
    if events == [] {
      assert Retained(l.segs, Top(c)) + [] == Retained(l.segs, Top(c));
    } else {
      var init, e := events[..|events| - 1], events[|events| - 1];
      var before := Run(c, l, init);
      RetainedIsSuffix(c, l, init);
      RecordedRetained(c, before, e.data, e.reopens);
      SuffixChain(Retained(l.segs, Top(c)), Retained(before.segs, Top(c)), AllWritten(c, l, init),
                  Adds(c, before, e.data, e.reopens), Retained(Run(c, l, events).segs, Top(c)));
    }
  }

  function Data(events: seq<Event>): seq<Record> {
    seq(|events|, i requires 0 <= i < |events| => events[i].data)
  }

  lemma DataStep(events: seq<Event>)
    requires events != []
    ensures Data(events) == Data(events[..|events| - 1]) + [events[|events| - 1].data]
  {
  }

  lemma StaysOpen(c: Config, l: Log, e: Event)
    requires Consistent(l) && l.live && e.reopens
    ensures Recorded(c, l, e.data, e.reopens).live && Adds(c, l, e.data, e.reopens) == [e.data]
  {
  }

  /** While the file can be reopened every record is written, and none is written afterwards. */
  lemma {:induction false} NothingLostWhileOpen(c: Config, l: Log, events: seq<Event>)
    requires Consistent(l) && l.live && forall i :: 0 <= i < |events| ==> events[i].reopens
    ensures Run(c, l, events).live && AllWritten(c, l, events) == Data(events)
    decreases |events|
  {
    if events != [] {
      var init := events[..|events| - 1];
      NothingLostWhileOpen(c, l, init);
      DataStep(events);
      StaysOpen(c, Run(c, l, init), events[|events| - 1]);
    }
  }

  /** No backup numbered above the limit ever appears, or goes, or changes. */
  lemma {:induction false} NothingAbove(c: Config, l: Log, events: seq<Event>, k: nat)
    requires Consistent(l) && k > 0 && k > c.maxBackups
    ensures k in Run(c, l, events).segs <==> k in l.segs
    ensures k in l.segs ==> Run(c, l, events).segs[k] == l.segs[k]
    decreases |events|
  {
    if events != [] {
      var init := events[..|events| - 1];
      NothingAbove(c, l, init, k);
      RotatedAt(Run(c, l, init).segs, Top(c), k);
    }
  }

  // ---------------------------------------------------------------- packing

  /** A file is within the limit, unless it is a single record. */
  predicate Fits(c: Config, segs: map<nat, seq<Record>>, k: nat) {
    k in segs ==> Bytes(segs[k]) <= c.maxBytes || |segs[k]| == 1
  }

  /** So are the files begun in the run and the first `born` of those it found. */
  predicate AllFit(c: Config, l: Log, born: nat) {
    forall k: nat :: k < l.turns + born && k <= Top(c) ==> Fits(c, l.segs, k)
  }

  /** Two neighbouring files together exceed the limit, and the newer holds something. */
  predicate Exceed(c: Config, segs: map<nat, seq<Record>>, k: nat) {
    k in segs && k + 1 in segs && segs[k] != [] && Bytes(segs[k]) + Bytes(segs[k + 1]) > c.maxBytes
  }

  /** So do the two files either side of every rotation; where the file could not be reopened, file 0 is missing. */
  predicate Paired(c: Config, l: Log) {
    forall k: nat :: k < l.turns && k < Top(c) && (l.live || k > 0) ==> Exceed(c, l.segs, k)
  }

  lemma AppendPacks(c: Config, l: Log, r: Record, born: nat)
    requires Consistent(l) && l.live && c.maxBytes > 0 && !Turns(c, l, r)
    ensures AllFit(c, l, born) ==> AllFit(c, Append(l, r), born)
    ensures Paired(c, l) ==> Paired(c, Append(l, r))
  {
    var l' := Append(l, r);
    FlatAppend(l.segs[0], r);
    if AllFit(c, l, born) {
      forall k: nat | k < l.turns + born && k <= Top(c) ensures Fits(c, l'.segs, k) {
        assert Fits(c, l.segs, k);
      }
    }
    if Paired(c, l) {
      forall k: nat | k < l.turns && k < Top(c) ensures Exceed(c, l'.segs, k) {
        assert Exceed(c, l.segs, k);
      }
    }
  }

  lemma TurnFits(c: Config, l: Log, r: Record, reopens: bool, born: nat)
    requires Consistent(l) && Turns(c, l, r) && AllFit(c, l, born)
    ensures AllFit(c, Recorded(c, l, r, reopens), born)
  {
    var l', top := Recorded(c, l, r, reopens), Top(c);
    if reopens { TurnRecorded(c, l, r); }
    forall k: nat | k < l'.turns + born && k <= top ensures Fits(c, l'.segs, k) {
      RotatedAt(l.segs, top, k);
      if k > 0 { assert Fits(c, l.segs, k - 1); }
    }
  }

  lemma TurnPairs(c: Config, l: Log, r: Record, reopens: bool)
    requires Consistent(l) && Turns(c, l, r) && Paired(c, l)
    ensures Paired(c, Recorded(c, l, r, reopens))
  {
    var l', top := Recorded(c, l, r, reopens), Top(c);
    FlatAppend([], r);
    if reopens { TurnRecorded(c, l, r); }
    forall k: nat | k < l'.turns && k < top && (l'.live || k > 0) ensures Exceed(c, l'.segs, k) {
      RotatedAt(l.segs, top, k);
      RotatedAt(l.segs, top, k + 1);
      if k > 0 { assert Exceed(c, l.segs, k - 1); }
    }
  }

  lemma RecordedPacks(c: Config, l: Log, r: Record, reopens: bool, born: nat)
    requires Consistent(l) && c.maxBytes > 0 && AllFit(c, l, born) && Paired(c, l)
    ensures AllFit(c, Recorded(c, l, r, reopens), born) && Paired(c, Recorded(c, l, r, reopens))
  {
    if Turns(c, l, r) {
      TurnFits(c, l, r, reopens, born);
      TurnPairs(c, l, r, reopens);
    } else if l.live {
      AppendPacks(c, l, r, born);
    }
  }

  /**
   Packing over every run, failed reopens included: the files begun in the run fit, and so do
   those it found that fitted then; the two files either side of a rotation exceed the limit.
   */
  lemma {:induction false} PackedAlways(c: Config, l: Log, events: seq<Event>, born: nat)
    requires Consistent(l) && l.turns == 0 && c.maxBytes > 0 && AllFit(c, l, born)
    ensures AllFit(c, Run(c, l, events), born) && Paired(c, Run(c, l, events))
    decreases |events|
  {
    if events != [] {
      var init, e := events[..|events| - 1], events[|events| - 1];
      PackedAlways(c, l, init, born);
      RecordedPacks(c, Run(c, l, init), e.data, e.reopens, born);
    }
  }

  /** No file up to the last backup is longer than `b`. */
  predicate Within(c: Config, segs: map<nat, seq<Record>>, b: nat) {
    forall k: nat :: k <= Top(c) ==> ShortFile(segs, k, b)
  }

  predicate ShortFile(segs: map<nat, seq<Record>>, k: nat, b: nat) {
    Bytes(Segment(segs, k)) <= b
  }

  lemma RecordedWithin(c: Config, l: Log, r: Record, reopens: bool, b: nat)
    requires Consistent(l) && 0 < c.maxBytes <= b && |r| <= b && Within(c, l.segs, b)
    ensures Within(c, Recorded(c, l, r, reopens).segs, b)
  {
    var l' := Recorded(c, l, r, reopens);
    FlatAppend([], r);
    if l.live { FlatAppend(l.segs[0], r); }
    if Turns(c, l, r) && reopens { TurnRecorded(c, l, r); }
    forall k: nat | k <= Top(c) ensures ShortFile(l'.segs, k, b) {
      assert ShortFile(l.segs, k, b);
      RotatedAt(l.segs, Top(c), k);
      if k > 0 { assert ShortFile(l.segs, k - 1, b); }
    }
  }

  lemma {:induction false} WithinAlways(c: Config, l: Log, events: seq<Event>, b: nat)
    requires Consistent(l) && 0 < c.maxBytes <= b && Within(c, l.segs, b)
    requires forall i :: 0 <= i < |events| ==> |events[i].data| <= b
    ensures Within(c, Run(c, l, events).segs, b)
    decreases |events|
  {
    if events != [] {
      var init, e := events[..|events| - 1], events[|events| - 1];
      WithinAlways(c, l, init, b);
      RecordedWithin(c, Run(c, l, init), e.data, e.reopens, b);
    }
  }

  /** The bytes in the files numbered up to `k`. */
  function Total(segs: map<nat, seq<Record>>, k: nat): nat {
    Bytes(Segment(segs, k)) + if k == 0 then 0 else Total(segs, k - 1)
  }

  lemma Distribute(n: nat, b: nat)
    ensures (n + 1) * b == n * b + b
  {
  }

  lemma {:induction false} TotalAtMost(segs: map<nat, seq<Record>>, k: nat, b: nat)
    requires forall j: nat :: j <= k ==> ShortFile(segs, j, b)
    ensures Total(segs, k) <= (k + 1) * b
  {
    Distribute(k, b);
    assert ShortFile(segs, k, b);
    if k > 0 {
      TotalAtMost(segs, k - 1, b);
    }
  }

  /** Every pair of neighbours from `lo` on counts for at least `b`. */
  lemma {:induction false} TotalAtLeast(segs: map<nat, seq<Record>>, lo: nat, k: nat, b: nat)
    requires lo <= k + 1
    requires forall j: nat :: lo <= j < k ==> Bytes(Segment(segs, j)) + Bytes(Segment(segs, j + 1)) >= b
    ensures Total(segs, k) >= ((k + 1 - lo) / 2) * b
  {
    if k + 1 - lo >= 2 {
      TwoMore(segs, lo, k);
      assert Bytes(Segment(segs, k - 1)) + Bytes(Segment(segs, k - 1 + 1)) >= b;
      if k >= 2 {
        TotalAtLeast(segs, lo, k - 2, b);
        Distribute((k - 1 - lo) / 2, b);
      }
    }
  }

  lemma TwoMore(segs: map<nat, seq<Record>>, lo: nat, k: nat)
    requires k > 0 && lo <= k - 1
    ensures Total(segs, k) ==
            Bytes(Segment(segs, k)) + Bytes(Segment(segs, k - 1)) + if k == 1 then 0 else Total(segs, k - 2)
    ensures (k + 1 - lo) / 2 == (k - 1 - lo) / 2 + 1
  {
  }

  lemma {:induction false} TotalMonotone(segs: map<nat, seq<Record>>, j: nat, k: nat)
    requires j <= k
    ensures Total(segs, j) <= Total(segs, k)
    decreases k
  {
    if j < k {
      TotalMonotone(segs, j, k - 1);
    }
  }

  /** The number of the oldest file that took part in a rotation of the run and is still kept. */
  function Oldest(c: Config, l: Log): nat {
    if l.turns < Top(c) then l.turns else Top(c)
  }

  /** How many files of the run are kept, the current one included while it is open. */
  function KeptFiles(c: Config, l: Log): nat {
    Oldest(c, l) + if l.live then 1 else 0
  }

  lemma PairedTotal(c: Config, l: Log)
    requires c.maxBytes > 0 && Paired(c, l)
    ensures Total(l.segs, Top(c)) >= (KeptFiles(c, l) / 2) * (c.maxBytes + 1)
  {
    var lo := if l.live then 0 else 1;
    forall j: nat | lo <= j < Oldest(c, l)
      ensures Bytes(Segment(l.segs, j)) + Bytes(Segment(l.segs, j + 1)) >= c.maxBytes + 1
    {
      assert Exceed(c, l.segs, j);
    }
    TotalAtLeast(l.segs, lo, Oldest(c, l), c.maxBytes + 1);
    TotalMonotone(l.segs, Oldest(c, l), Top(c));
  }

  /**
   Disk use of every run: at most as much as the files may hold, where `b` bounds the limit,
   every record and every file found at the start; and at least half of what the files kept
   from the run may hold.
   */
  lemma RetainedBounds(c: Config, l: Log, events: seq<Event>, b: nat)
    requires Consistent(l) && l.turns == 0 && 0 < c.maxBytes <= b && Within(c, l.segs, b)
    requires forall i :: 0 <= i < |events| ==> |events[i].data| <= b
    ensures var l' := Run(c, l, events);
            (KeptFiles(c, l') / 2) * (c.maxBytes + 1) <= Total(l'.segs, Top(c)) <= (Top(c) + 1) * b
  {
    WithinAlways(c, l, events, b);
    var l' := Run(c, l, events);
    forall j: nat | j <= Top(c) ensures ShortFile(l'.segs, j, b) {
    }
    TotalAtMost(l'.segs, Top(c), b);
    PackedAlways(c, l, events, 0);
    PairedTotal(c, l');
  }

  /** The state of a log on an empty directory. */
  const EMPTY_LOG := Log(map[0 := []], 0, true, 0)

  /** From an empty directory every file of every run fits the limit or is a single record. */
  lemma FreshLogFits(c: Config, events: seq<Event>, k: nat)
    requires c.maxBytes > 0 && k <= Top(c)
    ensures Fits(c, Run(c, EMPTY_LOG, events).segs, k)
  {
    assert AllFit(c, EMPTY_LOG, Top(c) + 1);
    PackedAlways(c, EMPTY_LOG, events, Top(c) + 1);
    assert k < Run(c, EMPTY_LOG, events).turns + (Top(c) + 1);
  }
}
