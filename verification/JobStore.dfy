/** The file-backed job store: one record per job and an index sorted newest first.
    Each method is one call under the store lock, without I/O faults. */
module JobStore {
  import opened Domain
  import opened JobState

  datatype Record = Record(job: Job, mode: Option<string>, sequence: nat)

  datatype Entry = Entry(id: string, status: Status, mode: Option<string>, createdAt: int, updatedAt: int)

  function EntryOf(record: Record): Entry {
    Entry(record.job.id, record.job.status, record.mode, record.job.createdAt, record.job.updatedAt)
  }

  /** The entry shows the job's identity, status, times and travel mode. */
  predicate ShowsJob(e: Entry, record: Record) {
    && e.id == record.job.id && e.status == record.job.status && e.mode == record.mode
    && e.createdAt == record.job.createdAt && e.updatedAt == record.job.updatedAt
  }

  /** Newest creation first, then newest update. */
  predicate NotAfter(a: Entry, b: Entry) {
    a.createdAt > b.createdAt || (a.createdAt == b.createdAt && a.updatedAt >= b.updatedAt)
  }

  ghost predicate Sorted(index: seq<Entry>) {
    forall i, j | 0 <= i < j < |index| :: NotAfter(index[i], index[j])
  }

  ghost predicate DistinctIds(index: seq<Entry>) {
    forall i, j | 0 <= i < j < |index| :: index[i].id != index[j].id
  }

  /** Insertion behind the entries that may precede it: with `SortIndex` a stable sort. */
  function Insert(e: Entry, index: seq<Entry>): (r: seq<Entry>)
    ensures forall x :: x in r <==> x == e || x in index
    ensures |r| == |index| + 1
  {
    if |index| == 0 || !NotAfter(index[0], e) || NotAfter(e, index[0]) then
      assert forall x :: x in [e] + index <==> x == e || x in index;
      [e] + index
    else
      assert index == [index[0]] + index[1..];
      [index[0]] + Insert(e, index[1..])
  }

  function SortIndex(index: seq<Entry>): (r: seq<Entry>)
    ensures forall x :: x in r <==> x in index
    ensures |r| == |index|
  {
    if |index| == 0 then []
    else
      assert index == [index[0]] + index[1..];
      Insert(index[0], SortIndex(index[1..]))
  }

  lemma {:induction false} InsertSorts(e: Entry, index: seq<Entry>)
    requires Sorted(index)
    ensures Sorted(Insert(e, index))
  {
    if |index| > 0 && NotAfter(index[0], e) && !NotAfter(e, index[0]) {
      InsertSorts(e, index[1..]);
      var rest := Insert(e, index[1..]);
      forall j | 0 <= j < |rest| ensures NotAfter(index[0], rest[j]) {
        assert rest[j] == e || rest[j] in index[1..];
      }
    }
  }

  lemma {:induction false} SortSorts(index: seq<Entry>)
    ensures Sorted(SortIndex(index))
  {
    if |index| > 0 {
      SortSorts(index[1..]);
      InsertSorts(index[0], SortIndex(index[1..]));
    }
  }

  lemma {:induction false} InsertKeepsDistinct(e: Entry, index: seq<Entry>)
    requires DistinctIds(index) && forall x | x in index :: x.id != e.id
    ensures DistinctIds(Insert(e, index))
  {
    if |index| > 0 && NotAfter(index[0], e) && !NotAfter(e, index[0]) {
      InsertKeepsDistinct(e, index[1..]);
      var rest := Insert(e, index[1..]);
      forall j | 0 <= j < |rest| ensures index[0].id != rest[j].id {
        assert rest[j] == e || rest[j] in index[1..];
      }
    }
  }

  lemma {:induction false} SortKeepsDistinct(index: seq<Entry>)
    requires DistinctIds(index)
    ensures DistinctIds(SortIndex(index))
  {
    if |index| > 0 {
      SortKeepsDistinct(index[1..]);
      forall x | x in SortIndex(index[1..]) ensures x.id != index[0].id {
        assert x in index[1..];
      }
      InsertKeepsDistinct(index[0], SortIndex(index[1..]));
    }
  }

  /** The entries of all other jobs, in order. */
  function Without(index: seq<Entry>, id: string): (r: seq<Entry>)
    ensures forall x :: x in r <==> x in index && x.id != id
    ensures |r| <= |index|
  {
    if |index| == 0 then []
    else
      assert index == [index[0]] + index[1..];
      (if index[0].id == id then [] else [index[0]]) + Without(index[1..], id)
  }

  lemma {:induction false} WithoutKeepsDistinct(index: seq<Entry>, id: string)
    requires DistinctIds(index)
    ensures DistinctIds(Without(index, id))
  {
    if |index| > 0 {
      WithoutKeepsDistinct(index[1..], id);
      forall x | x in Without(index[1..], id) ensures x.id != index[0].id { assert x in index[1..]; }
    }
  }

  /** Replace the entry of one job and sort again. */
  function Updated(index: seq<Entry>, entry: Entry): seq<Entry> {
    SortIndex([entry] + Without(index, entry.id))
  }

  /** Exactly one entry per job, showing its current state. */
  ghost predicate Mirrors(index: seq<Entry>, records: map<string, Record>) {
    && DistinctIds(index)
    && (forall x | x in index :: x.id in records && x == EntryOf(records[x.id]))
    && (forall id | id in records :: EntryOf(records[id]) in index)
  }

  ghost predicate Consistent(records: map<string, Record>) {
    forall id | id in records :: records[id].job.id == id && WellFormed(records[id].job)
  }

  lemma UpdatedHas(index: seq<Entry>, entry: Entry)
    requires DistinctIds(index)
    ensures Sorted(Updated(index, entry)) && DistinctIds(Updated(index, entry))
    ensures forall x :: x in Updated(index, entry) <==> x == entry || (x in index && x.id != entry.id)
  {
    var others := Without(index, entry.id);
    WithoutKeepsDistinct(index, entry.id);
    forall j | 0 <= j < |others| ensures others[j].id != entry.id { assert others[j] in others; }
    SortSorts([entry] + others);
    SortKeepsDistinct([entry] + others);
    forall x ensures x in Updated(index, entry) <==> x == entry || (x in index && x.id != entry.id) {
      assert x in [entry] + others <==> x == entry || x in others;
    }
  }

  /** Writing one record and updating its entry keeps the index a sorted mirror. */
  lemma UpdateMirrors(index: seq<Entry>, records: map<string, Record>, id: string, record: Record)
    requires Consistent(records) && Mirrors(index, records) && record.job.id == id
    ensures Mirrors(Updated(index, EntryOf(record)), records[id := record])
    ensures Sorted(Updated(index, EntryOf(record)))
  {
    var entry, records' := EntryOf(record), records[id := record];
    var index' := Updated(index, entry);
    UpdatedHas(index, entry);
    forall x | x in index' ensures x.id in records' && x == EntryOf(records'[x.id]) {
      if x.id != id { assert x in index; }
    }
    forall other | other in records' ensures EntryOf(records'[other]) in index' {
      if other != id { assert EntryOf(records[other]) in index && records'[other] == records[other]; }
    }
  }

  /** A job's mirror is unique up to the order of ties. */
  lemma MirrorsAgree(a: seq<Entry>, b: seq<Entry>, records: map<string, Record>)
    requires Mirrors(a, records) && Mirrors(b, records)
    ensures forall x :: x in a <==> x in b
  {
  }

  /** The front of a sorted index is newer than what it leaves out. */
  lemma FrontIsNewest(all: seq<Entry>, k: nat)
    requires Sorted(all) && DistinctIds(all) && k <= |all|
    ensures Sorted(all[..k]) && DistinctIds(all[..k]) && forall x | x in all[..k] :: x in all
    ensures forall x, y | x in all[..k] && y in all && y !in all[..k] :: NotAfter(x, y)
  {
    var front := all[..k];
    forall x, y | x in front && y in all && y !in front ensures NotAfter(x, y) {
      var i :| 0 <= i < k && front[i] == x;
      var j :| 0 <= j < |all| && all[j] == y;
      assert all[i] == x && all == front + all[k..];
    }
  }

  /** Only the job of one record changed. */
  ghost predicate OnlyJob(a: map<string, Record>, b: map<string, Record>, id: string) {
    id in a && id in b && b == a[id := a[id].(job := b[id].job)]
  }

  const INTERRUPTED := "JOB_INTERRUPTED"

  /** What recovery after a restart makes of a record. */
  function Recovered(record: Record, now: int): Record {
    if record.job.status.Active() then
      Record(record.job.(status := Status.Failed, error := Some(INTERRUPTED), updatedAt := now, completedAt := Some(now)),
             record.mode, record.sequence + 1)
    else record
  }

  /** What an interrupted job is found as: failed where it stood, with the reason and
      one more event to come. */
  predicate Interrupted(a: Record, b: Record, now: int) {
    && StoresOutcome(a.job, b.job, None, Some(INTERRUPTED), now)
    && b.mode == a.mode && b.sequence == a.sequence + 1
  }

  /** A directory listing: every job once. */
  ghost predicate Lists(directories: seq<string>, records: map<string, Record>) {
    && (forall i, j | 0 <= i < j < |directories| :: directories[i] != directories[j])
    && (forall id :: id in directories <==> id in records)
  }

  /** The active jobs of a store. */
  ghost function Unfinished(records: map<string, Record>): set<string> {
    set id | id in records && records[id].job.status.Active()
  }

  /** The store after the jobs in `done` have been recovered. */
  function RecoverThese(records: map<string, Record>, done: set<string>, now: int): map<string, Record> {
    map id | id in records :: if id in done then Recovered(records[id], now) else records[id]
  }

  lemma RecoverOneMore(records: map<string, Record>, done: set<string>, id: string, now: int)
    requires id in records && id !in done
    ensures id in RecoverThese(records, done, now) && RecoverThese(records, done, now)[id] == records[id]
    ensures RecoverThese(records, done + {id}, now) == RecoverThese(records, done, now)[id := Recovered(records[id], now)]
    ensures records[id].job.status.Active() ==>
      |(done + {id}) * Unfinished(records)| == |done * Unfinished(records)| + 1
    ensures !records[id].job.status.Active() ==>
      (done + {id}) * Unfinished(records) == done * Unfinished(records) && Recovered(records[id], now) == records[id]
  {
    if records[id].job.status.Active() {
      assert (done + {id}) * Unfinished(records) == done * Unfinished(records) + {id};
    }
  }

  /** The jobs of the first `k` directories are done. */
  ghost predicate DoneUpTo(directories: seq<string>, k: nat, done: set<string>) {
    k <= |directories| && forall i | 0 <= i < |directories| :: directories[i] in done <==> i < k
  }

  lemma DoneOneMore(directories: seq<string>, records: map<string, Record>, k: nat, done: set<string>)
    requires Lists(directories, records) && k < |directories| && DoneUpTo(directories, k, done)
    ensures directories[k] in records && directories[k] !in done
    ensures DoneUpTo(directories, k + 1, done + {directories[k]})
  {
    assert directories[k] in directories;
  }

  lemma DoneAll(directories: seq<string>, records: map<string, Record>, done: set<string>)
    requires Lists(directories, records) && done <= records.Keys && DoneUpTo(directories, |directories|, done)
    ensures done == records.Keys && done * Unfinished(records) == Unfinished(records)
  {
    forall id | id in records ensures id in done { assert id in directories; }
  }

  /** Turn each unfinished job into a failed one, directory by directory. */
  method FailInterrupted(records: map<string, Record>, directories: seq<string>, now: int)
    returns (all: map<string, Record>, recovered: nat)
    requires Lists(directories, records)
    ensures all == RecoverThese(records, records.Keys, now)
    ensures recovered == |Unfinished(records)|
  {
    all, recovered := records, 0;
    ghost var done: set<string> := {};
    for k := 0 to |directories|
      invariant RecoveredUpTo(records, directories, k, done, all, recovered, now)
    {
      var id := directories[k];
      RecoverNext(records, directories, k, done, all, recovered, now);
      if all[id].job.status.Active() {
        all, recovered := all[id := Recovered(all[id], now)], recovered + 1;
      }
      done := done + {id};
    }
    DoneAll(directories, records, done);
  }

  /** The jobs of the first `k` directories have been recovered and counted. */
  ghost predicate RecoveredUpTo(records: map<string, Record>, directories: seq<string>, k: nat, done: set<string>,
                                all: map<string, Record>, recovered: nat, now: int)
  {
    && done <= records.Keys && DoneUpTo(directories, k, done)
    && all == RecoverThese(records, done, now) && recovered == |done * Unfinished(records)|
  }

  lemma RecoverNext(records: map<string, Record>, directories: seq<string>, k: nat, done: set<string>,
                    all: map<string, Record>, recovered: nat, now: int)
    requires Lists(directories, records) && k < |directories|
    requires RecoveredUpTo(records, directories, k, done, all, recovered, now)
    ensures directories[k] in all
    ensures var id := directories[k];
      if all[id].job.status.Active() then
        RecoveredUpTo(records, directories, k + 1, done + {id}, all[id := Recovered(all[id], now)], recovered + 1, now)
      else RecoveredUpTo(records, directories, k + 1, done + {id}, all, recovered, now)
  {
    DoneOneMore(directories, records, k, done);
    RecoverOneMore(records, done, directories[k], now);
    if !all[directories[k]].job.status.Active() { assert all[directories[k] := all[directories[k]]] == all; }
  }

  lemma RecoveredConsistent(records: map<string, Record>, all: map<string, Record>, now: int)
    requires Consistent(records) && all == RecoverThese(records, records.Keys, now)
    ensures Consistent(all) && Unfinished(all) == {}
  {
  }

  /** Entry `i` shows the job of directory `i`. */
  ghost predicate Shows(directories: seq<string>, entries: seq<Entry>, records: map<string, Record>, i: nat) {
    i < |directories| && i < |entries| && directories[i] in records && entries[i] == EntryOf(records[directories[i]])
  }

  lemma ShowsNext(directories: seq<string>, entries: seq<Entry>, records: map<string, Record>)
    requires |entries| < |directories| && directories[|entries|] in records
    requires forall i: nat | i < |entries| :: Shows(directories, entries, records, i)
    ensures forall i: nat | i <= |entries| ::
      Shows(directories, entries + [EntryOf(records[directories[|entries|]])], records, i)
  {
    forall i: nat | i <= |entries|
      ensures Shows(directories, entries + [EntryOf(records[directories[|entries|]])], records, i)
    {
      if i < |entries| { assert Shows(directories, entries, records, i); }
    }
  }

  lemma ListedHas(directories: seq<string>, entries: seq<Entry>, records: map<string, Record>, id: string)
    requires Lists(directories, records) && |entries| == |directories| && id in records
    requires forall i: nat | i < |directories| :: Shows(directories, entries, records, i)
    ensures EntryOf(records[id]) in entries
  {
    assert id in directories;
    var i: nat :| i < |directories| && directories[i] == id;
    assert Shows(directories, entries, records, i);
  }

  /** One entry per directory mirrors the jobs. */
  lemma ListedMirrors(directories: seq<string>, entries: seq<Entry>, records: map<string, Record>)
    requires Consistent(records) && Lists(directories, records) && |entries| == |directories|
    requires forall i: nat | i < |directories| :: Shows(directories, entries, records, i)
    ensures Mirrors(entries, records)
  {
    forall i: nat, j: nat | i < j < |entries| ensures entries[i].id != entries[j].id {
      assert Shows(directories, entries, records, i) && Shows(directories, entries, records, j);
    }
    forall x | x in entries ensures x.id in records && x == EntryOf(records[x.id]) {
      var i: nat :| i < |entries| && entries[i] == x;
      assert Shows(directories, entries, records, i);
    }
    forall id | id in records ensures EntryOf(records[id]) in entries { ListedHas(directories, entries, records, id); }
  }

  lemma SortedMirrors(entries: seq<Entry>, records: map<string, Record>)
    requires Mirrors(entries, records)
    ensures Mirrors(SortIndex(entries), records) && Sorted(SortIndex(entries))
  {
    SortSorts(entries);
    SortKeepsDistinct(entries);
  }

  class FileJobStore {
    var records: map<string, Record>
    var index: seq<Entry>

    ghost predicate Valid()
      reads this
    {
      Consistent(records) && Mirrors(index, records) && Sorted(index)
    }

    constructor ()
      ensures Valid() && records == map[]
    {
      records := map[];
      index := [];
    }

    /** Persist one record and its index entry. */
    method Store(id: string, record: Record)
      requires Valid() && record.job.id == id && WellFormed(record.job)
      modifies this
      ensures Valid() && records == old(records)[id := record]
    {
      UpdateMirrors(index, records, id, record);
      records := records[id := record];
      index := Updated(index, EntryOf(record));
    }

    method CreateJob(id: string, mode: Option<string>, now: int) returns (r: Result<Job, StoreError>)
      requires Valid()
      modifies this
      ensures Valid()
      ensures id in old(records) ==> r == Err(DuplicateJob) && records == old(records)
      ensures id !in old(records) ==> r.Ok? && records == old(records)[id := Record(r.value, mode, 0)]
      ensures id !in old(records) ==> r.value == Job(id, Pending, None, 0, None, now, now, None, None, None)
    {
      if id in records {
        return Err(DuplicateJob);
      }
      Store(id, Record(Create(id, now), mode, 0));
      r := Ok(Create(id, now));
    }

    method MarkRunningJob(id: string, now: int) returns (r: Result<(), StoreError>)
      requires Valid()
      modifies this
      ensures Valid()
      ensures id in old(records) ==> id in records && Follows(old(records)[id].job, records[id].job)
      ensures id !in old(records) ==> r == Err(Io) && records == old(records)
      ensures id in old(records) ==>
        var before := old(records)[id].job;
        if before.status.Active() then
          r.Ok? && OnlyJob(old(records), records, id) && StoresRunning(before, records[id].job, now)
        else r == Err(InvalidTransition(before.status)) && records == old(records)
    {
      if id !in records {
        return Err(Io);
      }
      TransitionsMoveForward(records[id].job, 0, 0, None, "", now);
      var job :- MarkRunning(records[id].job, now);
      Store(id, records[id].(job := job));
      r := Ok(());
    }

    method UpdateJobProgress(id: string, stage: Stage, progress: nat, message: Option<string>, now: int)
      returns (r: Result<(), StoreError>)
      requires Valid()
      modifies this
      ensures Valid()
      ensures id in old(records) ==> id in records && Follows(old(records)[id].job, records[id].job)
      ensures id !in old(records) ==> r == Err(Io) && records == old(records)
      ensures id in old(records) ==>
        var before := old(records)[id].job;
        if before.status.Active() then
          && r.Ok? && OnlyJob(old(records), records, id)
          && StoresProgress(before, records[id].job, stage, progress, message, now)
        else r == Err(InvalidTransition(before.status)) && records == old(records)
    {
      if id !in records {
        return Err(Io);
      }
      TransitionsMoveForward(records[id].job, stage, progress, message, "", now);
      var job :- UpdateProgress(records[id].job, stage, progress, message, now);
      Store(id, records[id].(job := job));
      r := Ok(());
    }

    /** Write a result; a job cancelled first keeps its cancellation. */
    method SaveJobResult(id: string, result: string, now: int) returns (r: Result<TerminalWrite, StoreError>)
      requires Valid()
      modifies this
      ensures Valid()
      ensures id in old(records) ==> id in records && Follows(old(records)[id].job, records[id].job)
      ensures id !in old(records) ==> r == Err(JobNotFound) && records == old(records)
      ensures id in old(records) ==>
        var before := old(records)[id].job;
        if before.status.Running? then
          && r == Ok(Applied) && OnlyJob(old(records), records, id)
          && StoresOutcome(before, records[id].job, Some(result), None, now)
        else
          && r == (if before.status.Cancelled? then Ok(CancelledFirst) else Err(InvalidTransition(before.status)))
          && records == old(records)
    {
      if id !in records {
        return Err(JobNotFound);
      }
      TransitionsMoveForward(records[id].job, 0, 0, None, result, now);
      var saved :- SaveResult(records[id].job, result, now);
      if saved.0.Applied? {
        Store(id, records[id].(job := saved.1));
      }
      r := Ok(saved.0);
    }

    /** Write an error; a job cancelled first keeps its cancellation. */
    method SaveJobError(id: string, error: string, now: int) returns (r: Result<TerminalWrite, StoreError>)
      requires Valid()
      modifies this
      ensures Valid()
      ensures id in old(records) ==> id in records && Follows(old(records)[id].job, records[id].job)
      ensures id !in old(records) ==> r == Err(JobNotFound) && records == old(records)
      ensures id in old(records) ==>
        var before := old(records)[id].job;
        if before.status.Running? then
          && r == Ok(Applied) && OnlyJob(old(records), records, id)
          && StoresOutcome(before, records[id].job, None, Some(error), now)
        else
          && r == (if before.status.Cancelled? then Ok(CancelledFirst) else Err(InvalidTransition(before.status)))
          && records == old(records)
    {
      if id !in records {
        return Err(JobNotFound);
      }
      TransitionsMoveForward(records[id].job, 0, 0, None, error, now);
      var saved :- SaveError(records[id].job, error, now);
      if saved.0.Applied? {
        Store(id, records[id].(job := saved.1));
      }
      r := Ok(saved.0);
    }

    method CancelJob(id: string, message: string, now: int) returns (r: Result<Job, StoreError>)
      requires Valid()
      modifies this
      ensures Valid()
      ensures id in old(records) ==> id in records && Follows(old(records)[id].job, records[id].job)
      ensures id !in old(records) ==> r == Err(JobNotFound) && records == old(records)
      ensures id in old(records) ==>
        var before := old(records)[id].job;
        if before.status.Active() then
          && OnlyJob(old(records), records, id) && r == Ok(records[id].job)
          && StoresCancellation(before, records[id].job, message, now)
        else r == Err(JobNotCancellable(before.status)) && records == old(records)
    {
      if id !in records {
        return Err(JobNotFound);
      }
      TransitionsMoveForward(records[id].job, 0, 0, None, message, now);
      r := Cancel(records[id].job, message, now);
      if r.Ok? {
        Store(id, records[id].(job := r.value));
      }
    }

    method GetJob(id: string) returns (r: Option<Job>)
      ensures r == if id in records then Some(records[id].job) else None
    {
      r := if id in records then Some(records[id].job) else None;
    }

    /** The newest jobs first, at most `limit` of them. */
    method ListRecent(limit: nat) returns (r: seq<Entry>)
      requires Valid()
      ensures |r| == if |index| < limit then |index| else limit
      ensures forall i, j | 0 <= i < j < |r| ::
        r[i].createdAt >= r[j].createdAt && (r[i].createdAt == r[j].createdAt ==> r[i].updatedAt >= r[j].updatedAt)
      ensures forall e | e in r :: e.id in records && ShowsJob(e, records[e.id])
      ensures forall x, y | x in r && y in index && y !in r :: x.createdAt >= y.createdAt
      ensures Sorted(r) && DistinctIds(r) && forall x | x in r :: x in index
      ensures forall x, y | x in r && y in index && y !in r :: NotAfter(x, y)
    {
      var all := SortIndex(index);
      SortSorts(index);
      SortKeepsDistinct(index);
      FrontIsNewest(all, if |all| < limit then |all| else limit);
      r := if |all| < limit then all[..|all|] else all[..limit];
    }

    method RecordEventSequence(id: string, sequence: nat) returns (r: Result<(), StoreError>)
      requires Valid()
      modifies this
      ensures Valid() && index == old(index)
      ensures if id in old(records) then r.Ok? && records == old(records)[id := old(records)[id].(sequence := sequence)]
              else r == Err(JobNotFound) && records == old(records)
    {
      if id !in records {
        return Err(JobNotFound);
      }
      records := records[id := records[id].(sequence := sequence)];
      r := Ok(());
    }

    /** The index read back from the job directories, in whatever order they are
        listed, has the same entries as the one kept up to date call by call. */
    method RebuildIndex(directories: seq<string>)
      requires Consistent(records) && Lists(directories, records)
      modifies this`index
      ensures Valid()
      ensures old(Valid()) ==> forall x :: x in index <==> x in old(index)
    {
      ghost var jobs, kept, mirrored := records, index, Mirrors(index, records);
      var entries: seq<Entry> := [];
      for k := 0 to |directories|
        invariant |entries| == k && records == jobs && index == kept
        invariant forall i: nat | i < k :: Shows(directories, entries, records, i)
      {
        assert directories[k] in directories;
        ShowsNext(directories, entries, records);
        entries := entries + [EntryOf(records[directories[k]])];
      }
      ListedMirrors(directories, entries, records);
      SortedMirrors(entries, records);
      if mirrored { MirrorsAgree(SortIndex(entries), kept, jobs); }
      index := SortIndex(entries);
    }

    /** After a restart every unfinished job becomes a failed one, and only those change. */
    method RecoverInterrupted(directories: seq<string>, now: int) returns (recovered: nat)
      requires Valid() && Lists(directories, records)
      modifies this
      ensures Valid() && Unfinished(records) == {}
      ensures records.Keys == old(records).Keys
      ensures forall id | id in records && old(records)[id].job.status.Active() ::
        Interrupted(old(records)[id], records[id], now)
      ensures forall id | id in records && !old(records)[id].job.status.Active() :: records[id] == old(records)[id]
      ensures recovered == |Unfinished(old(records))|
    {
      var all, count := FailInterrupted(records, directories, now);
      recovered := count;
      RecoveredConsistent(records, all, now);
      records := all;
      RebuildIndex(directories);
    }
  }
}
