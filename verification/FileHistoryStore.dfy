/**
 The file-backed history store, its operations run in queue order. Reads and writes of the file may fail; a failed
 write leaves the file as it was, and reading back what was written gives the same entries.
 */
module FileHistoryStore {
  import opened Wrappers
  import opened HistoryRepository

  datatype Disk = Missing | Corrupt | Document(entries: seq<Entry>)

  /** What the file system does to one operation. */
  datatype Env = Env(readFails: bool, quarantineWorks: bool, writeFails: bool)

  datatype Call = Call(op: Operation, env: Env)

  datatype Store = Store(disk: Disk, cache: Option<seq<Entry>>, maxEntries: nat)

  function DiskEntries(disk: Disk): seq<Entry> {
    if disk.Document? then disk.entries else []
  }

  /** loadEntries(): the cache, or the file's entries now cached; None when reading fails. */
  function Load(f: Store, env: Env): (Store, Option<seq<Entry>>) {
    if f.cache.Some? then (f, f.cache)
    else if env.readFails then (f, None)
    else
      var disk := if f.disk.Corrupt? && env.quarantineWorks then Missing else f.disk;
      (f.(disk := disk, cache := Some(DiskEntries(f.disk))), Some(DiskEntries(f.disk)))
  }

  /** Write, and only then let the cache follow. */
  function Replace(f: Store, entries: seq<Entry>, env: Env, response: Response): (Store, Response) {
    if env.writeFails then (f, Failed) else (f.(disk := Document(entries), cache := Some(entries)), response)
  }

  function FileStep(f0: Store, call: Call): (Store, Response) {
    var op, env := call.op, call.env;
    if op.Clear? then Replace(f0, [], env, Done)
    else
      var capped := if op.SetMaxEntries? then f0.(maxEntries := NormalizeRetention(op.value)) else f0;
      var (f, loaded) := Load(capped, env);
      if loaded.None? then (f, Failed)
      else
        var entries := loaded.value;
        match op
        case Append(entry) => Replace(f, Trim([entry] + Without(entries, entry.id), f.maxEntries), env, Done)
        case Delete(id) =>
          var next := Without(entries, id);
          if |next| == |entries| then (f, Deleted(false)) else Replace(f, next, env, Deleted(true))
        case SetMaxEntries(_) =>
          var trimmed := Trim(entries, f.maxEntries);
          if |trimmed| == |entries| then (f, Done) else Replace(f, trimmed, env, Done)
        case List(offset, limit) => (f, Listed(Slice(entries, offset, limit)))
        case Get(id) => (f, Found(Lookup(entries, id)))
        case Clear => (f, Done)
  }

  function FileRun(f: Store, calls: seq<Call>): (Store, seq<Response>)
    decreases |calls|
  {
    if calls == [] then (f, [])
    else
      var (next, response) := FileStep(f, calls[0]);
      var (end, responses) := FileRun(next, calls[1..]);
      (end, [response] + responses)
  }

  // ---- Refinement ----

  /** What a caller can see. */
  function Visible(f: Store): Memory {
    Memory(if f.cache.Some? then f.cache.value else DiskEntries(f.disk), f.maxEntries)
  }

  predicate Coherent(f: Store) {
    f.cache.Some? ==> f.cache.value == DiskEntries(f.disk)
  }

  lemma {:induction false} WithoutNothing(entries: seq<Entry>, id: string)
    requires |Without(entries, id)| == |entries|
    ensures Without(entries, id) == entries
  {
    if entries != [] {
      assert entries[0].id != id;
      WithoutNothing(entries[1..], id);
    }
  }

  /**
   A successful operation does what the in-memory repository does; a failed one leaves the entries, and all but the
   cap.
   */
  lemma {:induction false} StepRefinesMemory(f: Store, call: Call)
    requires Coherent(f)
    ensures var (g, response) := FileStep(f, call);
      && Coherent(g)
      && (response != Failed ==> (Visible(g), response) == MemoryStep(Visible(f), call.op))
      && (response == Failed ==> Visible(g).entries == Visible(f).entries)
      && (response == Failed && !call.op.SetMaxEntries? ==> Visible(g) == Visible(f))
  {
    if call.op.Delete? && |Without(Visible(f).entries, call.op.id)| == |Visible(f).entries| {
      WithoutNothing(Visible(f).entries, call.op.id);
    }
  }

  /** No change of the cap fails in this run. */
  ghost predicate CapsSucceed(f: Store, calls: seq<Call>)
    decreases |calls|
  {
    calls == [] ||
    var (next, response) := FileStep(f, calls[0]);
    !(calls[0].op.SetMaxEntries? && response == Failed) && CapsSucceed(next, calls[1..])
  }

  /** The operations of the run that did not fail. */
  function Completed(f: Store, calls: seq<Call>): seq<Operation>
    decreases |calls|
  {
    if calls == [] then []
    else
      var (next, response) := FileStep(f, calls[0]);
      (if response == Failed then [] else [calls[0].op]) + Completed(next, calls[1..])
  }

  function Succeeded(responses: seq<Response>): seq<Response> {
    if responses == [] then []
    else (if responses[0] == Failed then [] else [responses[0]]) + Succeeded(responses[1..])
  }

  /** A run answers and ends as the in-memory repository does on the operations that did not fail. */
  lemma {:induction false} RunRefinesMemory(f: Store, calls: seq<Call>)
    requires Coherent(f) && CapsSucceed(f, calls)
    ensures var (g, responses) := FileRun(f, calls);
      && Coherent(g)
      && MemoryRun(Visible(f), Completed(f, calls)) == (Visible(g), Succeeded(responses))
    decreases |calls|
  {
    if calls != [] {
      var (next, response) := FileStep(f, calls[0]);
      StepRefinesMemory(f, calls[0]);
      RunRefinesMemory(next, calls[1..]);
      var more := FileRun(next, calls[1..]).1;
      assert ([response] + more)[1..] == more;
      if response == Failed {
        assert [] + Completed(next, calls[1..]) == Completed(next, calls[1..]);
        assert [] + Succeeded(more) == Succeeded(more);
      } else {
        assert ([calls[0].op] + Completed(next, calls[1..]))[1..] == Completed(next, calls[1..]);
      }
    }
  }

  /** From an unusable or missing file, the visible list is newest first by the appends that did not fail. */
  lemma {:induction false} StoredListIsNewestFirst(f: Store, calls: seq<Call>)
    requires f.cache.None? && !f.disk.Document? && CapsSucceed(f, calls)
    ensures NewestFirst(Completed(f, calls), Visible(FileRun(f, calls).0).entries)
  {
    RunRefinesMemory(f, calls);
    ListIsNewestFirst(f.maxEntries, Completed(f, calls));
  }

  // ---- What holds over every run, failing cap changes included ----

  lemma {:induction false} WithoutKeepsDistinct(entries: seq<Entry>, id: string)
    requires DistinctIds(entries)
    ensures DistinctIds(Without(entries, id))
    ensures |Without(entries, id)| >= |entries| - 1
  {
    if entries != [] {
      var tail := entries[1..];
      assert DistinctIds(tail);
      WithoutKeepsDistinct(tail, id);
      if entries[0].id == id {
        WithoutAbsent(tail, id);
      } else {
        forall j | 0 <= j < |Without(tail, id)|
          ensures Without(tail, id)[j].id != entries[0].id
        {
          assert Without(tail, id)[j] in tail;
        }
      }
    }
  }

  lemma {:induction false} MemoryStepKeepsDistinct(m: Memory, op: Operation)
    requires DistinctIds(m.entries)
    ensures DistinctIds(MemoryStep(m, op).0.entries)
  {
    match op
    case Append(entry) =>
      var kept := Without(m.entries, entry.id);
      WithoutKeepsDistinct(m.entries, entry.id);
      assert forall j :: 0 <= j < |kept| ==> kept[j] in kept;
      assert DistinctIds([entry] + kept);
    case Delete(id) => WithoutKeepsDistinct(m.entries, id);
    case _ =>
  }

  /** Whatever fails, the cache never leaves the file and no id is kept twice. */
  lemma {:induction false} RunKeepsCoherence(f: Store, calls: seq<Call>)
    requires Coherent(f) && DistinctIds(Visible(f).entries)
    ensures Coherent(FileRun(f, calls).0) && DistinctIds(Visible(FileRun(f, calls).0).entries)
    decreases |calls|
  {
    if calls != [] {
      StepRefinesMemory(f, calls[0]);
      MemoryStepKeepsDistinct(Visible(f), calls[0].op);
      RunKeepsCoherence(FileStep(f, calls[0]).0, calls[1..]);
    }
  }

  // ---- The retention cap ----

  predicate WithinCap(f: Store) {
    |Visible(f).entries| <= f.maxEntries
  }

  /** Every successful append, clear and change of the cap leaves the list within the cap, whatever went before. */
  lemma {:induction false} TrimmingWritesRestoreCap(f: Store, call: Call)
    requires Coherent(f) && FileStep(f, call).1 != Failed
    requires call.op.Append? || call.op.Clear? || call.op.SetMaxEntries?
    ensures WithinCap(FileStep(f, call).0)
  {
    StepRefinesMemory(f, call);
  }

  /** A successful delete does not trim: the list is within the cap after it exactly when one entry less was. */
  lemma {:induction false} DeleteIsWithinCapIff(f: Store, call: Call)
    requires Coherent(f) && DistinctIds(Visible(f).entries)
    requires call.op.Delete? && FileStep(f, call).1 == Deleted(true)
    ensures WithinCap(FileStep(f, call).0) <==> |Visible(f).entries| - 1 <= f.maxEntries
  {
    StepRefinesMemory(f, call);
    WithoutKeepsDistinct(Visible(f).entries, call.op.id);
  }

  /** The list stays within the cap over every run in which no change of the cap fails. */
  lemma {:induction false} RunStaysWithinCap(f: Store, calls: seq<Call>)
    requires Coherent(f) && WithinCap(f) && CapsSucceed(f, calls)
    ensures WithinCap(FileRun(f, calls).0)
    decreases |calls|
  {
    if calls != [] {
      StepRefinesMemory(f, calls[0]);
      RunStaysWithinCap(FileStep(f, calls[0]).0, calls[1..]);
    }
  }

  /** The write or, before the first load, the read that a change of the cap needs fails. */
  predicate CapChangeCanFail(f: Store, env: Env) {
    env.writeFails || (f.cache.None? && env.readFails)
  }

  /**
   A change of the cap leaves the store over its cap exactly when it should have trimmed and could not: the write
   failed, or the file had not been loaded yet and reading it failed.
   */
  lemma {:induction false} FailedCapOverflowsIff(f: Store, value: Option<int>, env: Env)
    requires Coherent(f)
    ensures var g := FileStep(f, Call(SetMaxEntries(value), env)).0;
      !WithinCap(g) <==> |Visible(f).entries| > NormalizeRetention(value) && CapChangeCanFail(f, env)
  {
  }

  /** A store opened over a file is within its cap exactly when the file is: opening does not trim, nor does reading. */
  lemma {:induction false} OpenedStoreIsWithinCapIff(file: Disk, maxEntries: Option<int>, lookups: seq<Call>)
    requires forall call :: call in lookups ==> call.op.List? || call.op.Get?
    ensures var fromFile := Store(file, None, NormalizeRetention(maxEntries));
      WithinCap(FileRun(fromFile, lookups).0) <==> |DiskEntries(file)| <= NormalizeRetention(maxEntries)
  {
    var store := Store(file, None, NormalizeRetention(maxEntries));
    ReadsKeepVisible(store, lookups);
  }

  lemma {:induction false} ReadsKeepVisible(f: Store, lookups: seq<Call>)
    requires Coherent(f) && forall call :: call in lookups ==> call.op.List? || call.op.Get?
    ensures Visible(FileRun(f, lookups).0) == Visible(f)
    decreases |lookups|
  {
    if lookups != [] {
      StepRefinesMemory(f, lookups[0]);
      ReadsKeepVisible(FileStep(f, lookups[0]).0, lookups[1..]);
    }
  }

  /** One step, for every operation and failure: exactly when the list is within the cap after it. */
  lemma {:induction false} StepIsWithinCapIff(f: Store, call: Call)
    requires Coherent(f) && DistinctIds(Visible(f).entries)
    ensures var (g, response) := FileStep(f, call);
      WithinCap(g) <==>
        match call.op
        case SetMaxEntries(value) => |Visible(f).entries| <= NormalizeRetention(value) || !CapChangeCanFail(f, call.env)
        case Append(_) => response != Failed || WithinCap(f)
        case Clear => response != Failed || WithinCap(f)
        case Delete(_) => |Visible(f).entries| - (if response == Deleted(true) then 1 else 0) <= f.maxEntries
        case _ => WithinCap(f)
  {
    StepRefinesMemory(f, call);
    match call.op
    case SetMaxEntries(value) => FailedCapOverflowsIff(f, value, call.env);
    case Delete(id) => WithoutKeepsDistinct(Visible(f).entries, id);
    case _ =>
  }

  /**
   However a store came to be over its cap, a successful append, clear or cap change mends it until a cap change
   fails.
   */
  lemma {:induction false} TrimmedRunStaysWithinCap(f: Store, trim: Call, after: seq<Call>)
    requires Coherent(f) && FileStep(f, trim).1 != Failed
    requires trim.op.Append? || trim.op.Clear? || trim.op.SetMaxEntries?
    requires CapsSucceed(FileStep(f, trim).0, after)
    ensures WithinCap(FileRun(f, [trim] + after).0)
  {
    StepRefinesMemory(f, trim);
    TrimmingWritesRestoreCap(f, trim);
    RunStaysWithinCap(FileStep(f, trim).0, after);
    assert ([trim] + after)[1..] == after;
  }

  const WORKS := Env(false, true, false)
  const WRITE_FAILS := Env(false, true, true)
  const READ_FAILS := Env(true, true, false)

  /** Before anything was loaded, a cap of one whose read fails: a later list shows all three entries. */
  lemma UnreadCapChangeOverflows(a: Entry, b: Entry, c: Entry)
    ensures var f := Store(Document([a, b, c]), None, 1000);
      var (g, response) := FileStep(f, Call(SetMaxEntries(Some(1)), READ_FAILS));
      && Coherent(f) && WithinCap(f) && response == Failed && g.disk == f.disk && g.maxEntries == 1
      && FileStep(g, Call(List(None, None), WORKS)).1 == Listed([a, b, c])
  {
  }

  /** Three entries, a cap of one whose write fails, and a successful delete: the store is left over its cap. */
  lemma DeleteAfterFailedCapOverflows(a: Entry, b: Entry, c: Entry)
    requires a.id != b.id && a.id != c.id && b.id != c.id
    ensures var f := Store(Document([a, b, c]), Some([a, b, c]), 1000);
      var g := FileStep(f, Call(SetMaxEntries(Some(1)), WRITE_FAILS)).0;
      var (h, response) := FileStep(g, Call(Delete(a.id), WORKS));
      Coherent(f) && WithinCap(f) && response == Deleted(true) && Visible(h) == Memory([b, c], 1)
  {
    assert [a, b, c][1..] == [b, c] && [b, c][1..] == [c] && [c][1..] == [];
    assert Without([c], a.id) == [c];
    assert Without([b, c], a.id) == [b, c];
    assert Without([a, b, c], a.id) == [b, c];
  }

  // ---- The store ----

  class FileHistoryStore {
    var disk: Disk
    var cache: Option<seq<Entry>>
    var maxEntries: nat

    ghost function View(): Store
      reads this
    {
      Store(disk, cache, maxEntries)
    }

    constructor (file: Disk, maxEntries: Option<int>)
      ensures View() == Store(file, None, NormalizeRetention(maxEntries))
    {
      this.disk, this.cache, this.maxEntries := file, None, NormalizeRetention(maxEntries);
    }

    method LoadEntries(env: Env) returns (entries: Option<seq<Entry>>)
      modifies this
      ensures (View(), entries) == Load(old(View()), env)
    {
      if cache.Some? {
        return cache;
      }
      if env.readFails {
        return None;
      }
      var loaded := if disk.Document? then disk.entries else [];
      if disk.Corrupt? && env.quarantineWorks {
        disk := Missing;
      }
      cache := Some(loaded);
      return cache;
    }

    method Persist(entries: seq<Entry>, env: Env) returns (ok: bool)
      modifies `disk
      ensures ok == !env.writeFails && disk == if ok then Document(entries) else old(disk)
    {
      if env.writeFails {
        return false;
      }
      disk := Document(entries);
      return true;
    }

    method Append(entry: Entry, env: Env) returns (response: Response)
      requires Coherent(View())
      modifies this
      ensures (View(), response) == FileStep(old(View()), Call(Operation.Append(entry), env)) && Coherent(View())
    {
      var entries := LoadEntries(env);
      if entries.None? {
        return Failed;
      }
      var next := Trim([entry] + Without(entries.value, entry.id), maxEntries);
      var ok := Persist(next, env);
      if !ok {
        return Failed;
      }
      cache := Some(next);
      return Done;
    }

    method Delete(id: string, env: Env) returns (response: Response)
      requires Coherent(View())
      modifies this
      ensures (View(), response) == FileStep(old(View()), Call(Operation.Delete(id), env)) && Coherent(View())
    {
      var entries := LoadEntries(env);
      if entries.None? {
        return Failed;
      }
      var next := Without(entries.value, id);
      if |next| == |entries.value| {
        return Deleted(false);
      }
      var ok := Persist(next, env);
      if !ok {
        return Failed;
      }
      cache := Some(next);
      return Deleted(true);
    }

    method Clear(env: Env) returns (response: Response)
      requires Coherent(View())
      modifies this
      ensures (View(), response) == FileStep(old(View()), Call(Operation.Clear, env)) && Coherent(View())
    {
      var ok := Persist([], env);
      if !ok {
        return Failed;
      }
      cache := Some([]);
      return Done;
    }

    method SetMaxEntries(value: Option<int>, env: Env) returns (response: Response)
      requires Coherent(View())
      modifies this
      ensures (View(), response) == FileStep(old(View()), Call(Operation.SetMaxEntries(value), env)) && Coherent(View())
    {
      maxEntries := NormalizeRetention(value);
      var entries := LoadEntries(env);
      if entries.None? {
        return Failed;
      }
      var trimmed := Trim(entries.value, maxEntries);
      if |trimmed| != |entries.value| {
        var ok := Persist(trimmed, env);
        if !ok {
          return Failed;
        }
        cache := Some(trimmed);
      }
      return Done;
    }

    method List(offset: Option<int>, limit: Option<int>, env: Env) returns (response: Response)
      requires Coherent(View())
      modifies this
      ensures (View(), response) == FileStep(old(View()), Call(Operation.List(offset, limit), env)) && Coherent(View())
    {
      var entries := LoadEntries(env);
      if entries.None? {
        return Failed;
      }
      return Listed(Slice(entries.value, offset, limit));
    }

    method Get(id: string, env: Env) returns (response: Response)
      requires Coherent(View())
      modifies this
      ensures (View(), response) == FileStep(old(View()), Call(Operation.Get(id), env)) && Coherent(View())
    {
      var entries := LoadEntries(env);
      if entries.None? {
        return Failed;
      }
      return Found(Lookup(entries.value, id));
    }
  }
}
