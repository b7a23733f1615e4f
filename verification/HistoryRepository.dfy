/** The history repository contract and its in-memory form, the specification the file store is held to. */
module HistoryRepository {
  import opened Wrappers

  datatype Entry = Entry(id: string, content: string)

  datatype Operation =
    | Append(entry: Entry)
    | Delete(id: string)
    | Clear
    | SetMaxEntries(value: Option<int>)  // None: not an integral number
    | List(offset: Option<int>, limit: Option<int>)
    | Get(id: string)

  datatype Response = Done | Deleted(existed: bool) | Listed(entries: seq<Entry>) | Found(entry: Option<Entry>) | Failed

  datatype Memory = Memory(entries: seq<Entry>, maxEntries: nat)

  const DEFAULT_RETENTION: nat := 1000
  const MAX_SAFE_INTEGER: nat := 0x1F_FFFF_FFFF_FFFF

  function NormalizeRetention(value: Option<int>): (r: nat)
    ensures r >= 1
    ensures value.Some? && 1 <= value.value <= MAX_SAFE_INTEGER ==> r == value.value
  {
    if value.Some? && 1 <= value.value <= MAX_SAFE_INTEGER then value.value else DEFAULT_RETENTION
  }

  /** A retention that is missing or no positive safe integer is a thousand. */
  lemma RetentionInFull(value: Option<int>)
    ensures NormalizeRetention(value) ==
      match value
      case None => 1000
      case Some(n) => if 1 <= n && n <= 9007199254740991 then n else 1000
  {
  }

  function Without(entries: seq<Entry>, id: string): (r: seq<Entry>)
    ensures |r| <= |entries|
    ensures forall e :: e in r <==> e in entries && e.id != id
  {
    if entries == [] then []
    else if entries[0].id == id then Without(entries[1..], id)
    else
      assert entries == [entries[0]] + entries[1..];
      [entries[0]] + Without(entries[1..], id)
  }

  function Trim(entries: seq<Entry>, maxEntries: nat): (r: seq<Entry>)
    ensures r <= entries && |r| <= maxEntries
  {
    if |entries| <= maxEntries then entries else entries[..maxEntries]
  }

  function Max(a: int, b: int): int {
    if a < b then b else a
  }

  /** The page of `entries` a list call asks for; bounds beyond the end are cut off. */
  function Slice(entries: seq<Entry>, offset: Option<int>, limit: Option<int>): (r: seq<Entry>)
    ensures limit.Some? ==> |r| <= Max(0, limit.value)
  {
    var from := Max(0, if offset.Some? then offset.value else 0);
    if from >= |entries| then []
    else if limit.None? || from + Max(0, limit.value) >= |entries| then entries[from..]
    else entries[from..from + Max(0, limit.value)]
  }

  /** Pages join up: a page, and then everything from where it ends, is everything from where it begins. */
  lemma PagesJoinUp(entries: seq<Entry>, offset: nat, limit: nat)
    ensures Slice(entries, Some(offset), Some(limit)) + Slice(entries, Some(offset + limit), None)
         == Slice(entries, Some(offset), None)
    ensures Slice(entries, None, None) == entries
    ensures Slice(entries, Some(-1 - offset), Some(limit)) == Slice(entries, None, Some(limit))
    ensures Slice(entries, Some(offset), Some(-1 - limit)) == []
  {
  }

  /** Each entry of a page: the page begins behind the offset, if positive, and ends with its limit or the list. */
  lemma PageInFull(entries: seq<Entry>, offset: Option<int>, limit: Option<int>)
    ensures var page := Slice(entries, offset, limit);
      var skipped := if offset.Some? && offset.value > 0 then offset.value else 0;
      && (forall k :: 0 <= k < |page| ==> skipped + k < |entries| && page[k] == entries[skipped + k])
      && (limit.None? ==> |page| == if skipped < |entries| then |entries| - skipped else 0)
      && (limit.Some? ==>
            |page| == if skipped >= |entries| || limit.value < 0 then 0
                      else if skipped + limit.value > |entries| then |entries| - skipped else limit.value)
  {
  }

  function Lookup(entries: seq<Entry>, id: string): (r: Option<Entry>)
    ensures r.Some? ==> r.value in entries && r.value.id == id
    ensures r.None? ==> forall e :: e in entries ==> e.id != id
  {
    if entries == [] then None
    else if entries[0].id == id then Some(entries[0])
    else Lookup(entries[1..], id)
  }

  function MemoryStep(m: Memory, op: Operation): (Memory, Response) {
    match op
    case Append(entry) => (m.(entries := Trim([entry] + Without(m.entries, entry.id), m.maxEntries)), Done)
    case Delete(id) =>
      var kept := Without(m.entries, id);
      (m.(entries := kept), Deleted(|kept| < |m.entries|))
    case Clear => (m.(entries := []), Done)
    case SetMaxEntries(value) =>
      var cap := NormalizeRetention(value);
      (Memory(Trim(m.entries, cap), cap), Done)
    case List(offset, limit) => (m, Listed(Slice(m.entries, offset, limit)))
    case Get(id) => (m, Found(Lookup(m.entries, id)))
  }

  function MemoryRun(m: Memory, ops: seq<Operation>): (Memory, seq<Response>)
    decreases |ops|
  {
    if ops == [] then (m, [])
    else
      var (next, response) := MemoryStep(m, ops[0]);
      var (end, responses) := MemoryRun(next, ops[1..]);
      (end, [response] + responses)
  }

  // ---- Newest first ----

  /** When `id` was last appended: one past the position, 0 for never. */
  function LastAppend(ops: seq<Operation>, id: string): (r: nat)
    ensures r <= |ops|
    ensures r > 0 ==> ops[r - 1].Append? && ops[r - 1].entry.id == id
    ensures forall k :: r <= k < |ops| && ops[k].Append? ==> ops[k].entry.id != id
  {
    if ops == [] then 0
    else
      var last := ops[|ops| - 1];
      if last.Append? && last.entry.id == id then |ops| else LastAppend(ops[..|ops| - 1], id)
  }

  predicate Removes(op: Operation, id: string) {
    op.Clear? || (op.Delete? && op.id == id)
  }

  /** The entry is the latest one appended under its id and has not been removed since. */
  ghost predicate Live(ops: seq<Operation>, e: Entry) {
    var at := LastAppend(ops, e.id);
    && at > 0 && ops[at - 1] == Append(e)
    && forall k :: at <= k < |ops| ==> !Removes(ops[k], e.id)
  }

  ghost predicate Newer(ops: seq<Operation>, a: Entry, b: Entry) {
    LastAppend(ops, a.id) > LastAppend(ops, b.id)
  }

  ghost predicate NewestFirst(ops: seq<Operation>, entries: seq<Entry>) {
    (forall e :: e in entries ==> Live(ops, e)) && ByLatest(ops, entries)
  }

  ghost predicate DistinctIds(entries: seq<Entry>) {
    forall i, j :: 0 <= i < j < |entries| ==> entries[i].id != entries[j].id
  }

  lemma LiveStays(ops: seq<Operation>, op: Operation, e: Entry)
    requires Live(ops, e) && !Removes(op, e.id) && !(op.Append? && op.entry.id == e.id)
    ensures Live(ops + [op], e) && LastAppend(ops + [op], e.id) == LastAppend(ops, e.id)
  {
    assert (ops + [op])[..|ops|] == ops;
  }

  ghost predicate ByLatest(ops: seq<Operation>, entries: seq<Entry>) {
    forall i, j :: 0 <= i < j < |entries| ==> Newer(ops, entries[i], entries[j])
  }

  lemma {:induction false} WithoutKeepsOrder(ops: seq<Operation>, entries: seq<Entry>, id: string)
    requires ByLatest(ops, entries)
    ensures ByLatest(ops, Without(entries, id))
  {
    if entries != [] {
      var tail := entries[1..];
      assert forall i :: 0 <= i < |tail| ==> tail[i] == entries[i + 1];
      WithoutKeepsOrder(ops, tail, id);
      if entries[0].id != id {
        ConsKeepsOrder(ops, entries[0], Without(tail, id));
      }
    }
  }

  lemma ConsKeepsOrder(ops: seq<Operation>, first: Entry, rest: seq<Entry>)
    requires ByLatest(ops, rest) && forall e :: e in rest ==> Newer(ops, first, e)
    ensures ByLatest(ops, [first] + rest)
  {
  }

  lemma OrderStays(ops: seq<Operation>, op: Operation, entries: seq<Entry>)
    requires NewestFirst(ops, entries)
    requires forall e :: e in entries ==> !Removes(op, e.id) && !(op.Append? && op.entry.id == e.id)
    ensures NewestFirst(ops + [op], entries)
  {
    forall e | e in entries
      ensures Live(ops + [op], e) && LastAppend(ops + [op], e.id) == LastAppend(ops, e.id)
    {
      LiveStays(ops, op, e);
    }
  }

  lemma {:induction false} AppendKeepsOrder(ops: seq<Operation>, entry: Entry, entries: seq<Entry>)
    requires NewestFirst(ops, entries)
    ensures NewestFirst(ops + [Append(entry)], [entry] + Without(entries, entry.id))
  {
    var kept := Without(entries, entry.id);
    WithoutKeepsOrder(ops, entries, entry.id);
    OrderStays(ops, Append(entry), kept);
    var now := ops + [Append(entry)];
    assert LastAppend(now, entry.id) == |now| && Live(now, entry);
    forall e | e in kept
      ensures Newer(now, entry, e)
    {
      LiveStays(ops, Append(entry), e);
    }
    ConsKeepsOrder(now, entry, kept);
  }

  lemma {:induction false} StepKeepsOrder(ops: seq<Operation>, m: Memory, op: Operation)
    requires NewestFirst(ops, m.entries)
    ensures NewestFirst(ops + [op], MemoryStep(m, op).0.entries)
  {
    match op
    case Append(entry) => AppendKeepsOrder(ops, entry, m.entries);
    case Delete(id) =>
      WithoutKeepsOrder(ops, m.entries, id);
      OrderStays(ops, op, Without(m.entries, id));
    case Clear =>
    case SetMaxEntries(value) => OrderStays(ops, op, m.entries);
    case _ => OrderStays(ops, op, m.entries);
  }

  lemma {:induction false} RunKeepsOrder(past: seq<Operation>, m: Memory, ops: seq<Operation>)
    requires NewestFirst(past, m.entries)
    ensures NewestFirst(past + ops, MemoryRun(m, ops).0.entries)
    decreases |ops|
  {
    if ops == [] {
      assert past + ops == past;
    } else {
      StepKeepsOrder(past, m, ops[0]);
      RunKeepsOrder(past + [ops[0]], MemoryStep(m, ops[0]).0, ops[1..]);
      assert past + [ops[0]] + ops[1..] == past + ops;
    }
  }

  /** From an empty repository, the list holds live entries only, by latest append, newest first, each id once. */
  lemma {:induction false} ListIsNewestFirst(cap: nat, ops: seq<Operation>)
    ensures NewestFirst(ops, MemoryRun(Memory([], cap), ops).0.entries)
    ensures DistinctIds(MemoryRun(Memory([], cap), ops).0.entries)
  {
    RunKeepsOrder([], Memory([], cap), ops);
    assert [] + ops == ops;
    var entries := MemoryRun(Memory([], cap), ops).0.entries;
    assert forall i, j :: 0 <= i < j < |entries| ==> Newer(ops, entries[i], entries[j]);
  }

  // ---- Nothing live is missing ----

  /** How long the list would be without trimming. */
  function Untrimmed(m: Memory, op: Operation): nat {
    if op.Append? then 1 + |Without(m.entries, op.entry.id)| else |m.entries|
  }

  /** No operation of the run cuts entries off the end. */
  ghost predicate NeverTrims(m: Memory, ops: seq<Operation>)
    decreases |ops|
  {
    ops == [] ||
    var next := MemoryStep(m, ops[0]).0;
    Untrimmed(m, ops[0]) <= next.maxEntries && NeverTrims(next, ops[1..])
  }

  ghost predicate AllListed(ops: seq<Operation>, entries: seq<Entry>) {
    forall e :: Live(ops, e) ==> e in entries
  }

  lemma LiveWasLive(ops: seq<Operation>, op: Operation, e: Entry)
    requires Live(ops + [op], e)
    ensures op == Append(e) || (Live(ops, e) && !Removes(op, e.id) && !(op.Append? && op.entry.id == e.id))
  {
    var now := ops + [op];
    assert now[..|ops|] == ops && now[|ops|] == op;
    var at := LastAppend(now, e.id);
    if at <= |ops| {
      assert LastAppend(ops, e.id) == at && now[at - 1] == ops[at - 1];
      assert !Removes(now[|ops|], e.id);
      assert forall k :: at <= k < |ops| ==> now[k] == ops[k];
    }
  }

  lemma {:induction false} StepKeepsListed(ops: seq<Operation>, m: Memory, op: Operation)
    requires AllListed(ops, m.entries) && Untrimmed(m, op) <= MemoryStep(m, op).0.maxEntries
    ensures AllListed(ops + [op], MemoryStep(m, op).0.entries)
  {
    forall e | Live(ops + [op], e)
      ensures e in MemoryStep(m, op).0.entries
    {
      LiveWasLive(ops, op, e);
    }
  }

  lemma {:induction false} RunKeepsListed(past: seq<Operation>, m: Memory, ops: seq<Operation>)
    requires AllListed(past, m.entries) && NeverTrims(m, ops)
    ensures AllListed(past + ops, MemoryRun(m, ops).0.entries)
    decreases |ops|
  {
    if ops == [] {
      assert past + ops == past;
    } else {
      StepKeepsListed(past, m, ops[0]);
      RunKeepsListed(past + [ops[0]], MemoryStep(m, ops[0]).0, ops[1..]);
      assert past + [ops[0]] + ops[1..] == past + ops;
    }
  }

  /** While nothing is trimmed, the list holds exactly the live entries. */
  lemma {:induction false} LiveIsListedIff(cap: nat, ops: seq<Operation>, e: Entry)
    requires NeverTrims(Memory([], cap), ops)
    ensures e in MemoryRun(Memory([], cap), ops).0.entries <==> Live(ops, e)
  {
    RunKeepsListed([], Memory([], cap), ops);
    ListIsNewestFirst(cap, ops);
    assert [] + ops == ops;
  }

  /** Nothing is taken away and the cap stays. */
  predicate KeepsAll(op: Operation) {
    op.Append? || op.List? || op.Get?
  }

  lemma {:induction false} WithoutOfTrimmed(entries: seq<Entry>, id: string, cap: nat)
    requires DistinctIds(entries) && cap > 0
    ensures Trim(Without(Trim(entries, cap), id), cap - 1) == Trim(Without(entries, id), cap - 1)
    decreases |entries|
  {
    if |entries| > cap {
      var tail := entries[1..];
      assert entries[..cap][1..] == tail[..cap - 1];
      if entries[0].id == id {
        forall e | e in tail
          ensures e.id != id
        {
          var i :| 0 <= i < |tail| && tail[i] == e;
          assert entries[i + 1] == e;
        }
        WithoutAbsent(tail, id);
        assert forall e :: e in tail[..cap - 1] ==> e in tail;
        WithoutAbsent(tail[..cap - 1], id);
      } else if cap > 1 {
        assert DistinctIds(tail);
        WithoutOfTrimmed(tail, id, cap - 1);
        TrimOfCons(entries[0], Without(tail[..cap - 1], id), cap - 1);
        TrimOfCons(entries[0], Without(tail, id), cap - 1);
      }
    }
  }

  lemma TrimOfCons(first: Entry, rest: seq<Entry>, cap: nat)
    requires cap > 0
    ensures Trim([first] + rest, cap) == [first] + Trim(rest, cap - 1)
  {
  }

  lemma {:induction false} WithoutAbsent(entries: seq<Entry>, id: string)
    requires forall e :: e in entries ==> e.id != id
    ensures Without(entries, id) == entries
  {
    if entries != [] {
      assert entries[0] in entries && forall e :: e in entries[1..] ==> e in entries;
      WithoutAbsent(entries[1..], id);
    }
  }

  lemma {:induction false} StepKeepsNewest(m: Memory, all: Memory, op: Operation)
    requires m.maxEntries > 0 && DistinctIds(all.entries) && KeepsAll(op)
    requires m.entries == Trim(all.entries, m.maxEntries) && Untrimmed(all, op) <= all.maxEntries
    ensures MemoryStep(m, op).0.entries == Trim(MemoryStep(all, op).0.entries, m.maxEntries)
  {
    if op.Append? {
      var e := op.entry;
      WithoutOfTrimmed(all.entries, e.id, m.maxEntries);
      TrimOfCons(e, Without(m.entries, e.id), m.maxEntries);
      TrimOfCons(e, Without(all.entries, e.id), m.maxEntries);
    }
  }

  /** Beside any run that takes nothing away runs one that keeps everything; the list is the newest of that one's. */
  lemma {:induction false} RunKeepsNewest(past: seq<Operation>, m: Memory, all: Memory, ops: seq<Operation>)
    requires m.maxEntries > 0 && m.entries == Trim(all.entries, m.maxEntries)
    requires NewestFirst(past, all.entries) && |all.entries| + |ops| <= all.maxEntries
    requires forall op :: op in ops ==> KeepsAll(op)
    ensures NeverTrims(all, ops)
    ensures MemoryRun(m, ops).0.entries == Trim(MemoryRun(all, ops).0.entries, m.maxEntries)
    decreases |ops|
  {
    if ops != [] {
      assert forall i, j :: 0 <= i < j < |all.entries| ==> Newer(past, all.entries[i], all.entries[j]);
      StepKeepsNewest(m, all, ops[0]);
      StepKeepsOrder(past, all, ops[0]);
      RunKeepsNewest(past + [ops[0]], MemoryStep(m, ops[0]).0, MemoryStep(all, ops[0]).0, ops[1..]);
    }
  }

  /** When nothing is taken away, the list is the `cap` newest of all entries ever appended, each as appended last. */
  lemma {:induction false} NewestAreKept(cap: nat, ops: seq<Operation>)
    requires cap > 0 && forall op :: op in ops ==> KeepsAll(op)
    ensures var all := MemoryRun(Memory([], |ops|), ops).0.entries;
      && (forall e :: e in all <==> Live(ops, e)) && NewestFirst(ops, all)
      && MemoryRun(Memory([], cap), ops).0.entries == Trim(all, cap)
  {
    RunKeepsNewest([], Memory([], cap), Memory([], |ops|), ops);
    ListIsNewestFirst(|ops|, ops);
    forall e
      ensures e in MemoryRun(Memory([], |ops|), ops).0.entries <==> Live(ops, e)
    {
      LiveIsListedIff(|ops|, ops, e);
    }
  }

  // ---- The in-memory repository ----

  class InMemoryHistoryRepository {
    var entries: seq<Entry>
    var maxEntries: nat

    ghost function View(): Memory
      reads this
    {
      Memory(entries, maxEntries)
    }

    constructor (maxEntries: Option<int>)
      ensures View() == Memory([], NormalizeRetention(maxEntries))
    {
      this.entries, this.maxEntries := [], NormalizeRetention(maxEntries);
    }

    method Append(entry: Entry)
      modifies this
      ensures View() == MemoryStep(old(View()), Operation.Append(entry)).0
    {
      entries := [entry] + Without(entries, entry.id);
      TrimEntries();
    }

    method Delete(id: string) returns (existed: bool)
      modifies this
      ensures (View(), Deleted(existed)) == MemoryStep(old(View()), Operation.Delete(id))
    {
      var before := |entries|;
      entries := Without(entries, id);
      existed := |entries| < before;
    }

    method Clear()
      modifies this
      ensures View() == MemoryStep(old(View()), Operation.Clear).0
    {
      entries := [];
    }

    method SetMaxEntries(value: Option<int>)
      modifies this
      ensures View() == MemoryStep(old(View()), Operation.SetMaxEntries(value)).0
    {
      maxEntries := NormalizeRetention(value);
      TrimEntries();
    }

    method TrimEntries()
      modifies `entries
      ensures entries == Trim(old(entries), maxEntries)
    {
      if |entries| > maxEntries {
        entries := entries[..maxEntries];
      }
    }
  }
}
