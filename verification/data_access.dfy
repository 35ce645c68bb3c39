/**
  The generic record accessor (DataAccessObjectImpl): insert-or-merge
  dispatch, remove by re-fetch, remove by key through a textual delete
  statement, and the bulk forms of save, merge and remove-by-key under the
  shared batch-flush policy. Every operation returns what the Java method
  returns or throws, together with the calls it made on the persistence
  context.
 */
module DataAccess {
  import opened Wrappers
  import opened Persistence
  import opened Batching

  /** DEFAULT_AMOUNT_SAVE_BATCH_RECORDS. */
  const DefaultBatchSize: int := 50

  /**
    One accessor instance: the entity name fixed by its constructor and the
    batch size its `getAmountSaveBatchRecords` reports (overridable).
   */
  datatype Dao = Dao(entityName: string, batchSize: int)

  /**
    The entity name: the name given in the entity class's `@Entity`
    annotation when it has one and that name is not empty, otherwise the
    class's simple name. `annotation` is `None` when the class carries no
    `@Entity` annotation; an annotation without a name has the name "".
   */
  function ResolveEntityName(annotation: Option<string>, simpleName: string): (name: string)
    ensures annotation.Some? && annotation.value != "" ==> name == annotation.value
    ensures annotation.None? || annotation.value == "" ==> name == simpleName
  {
    match annotation
    case Some(n) => if n == "" then simpleName else n
    case None => simpleName
  }

  /** The constructor: the name is resolved once; the batch size is the default. */
  function NewDao(annotation: Option<string>, simpleName: string): (d: Dao)
    ensures d.entityName == ResolveEntityName(annotation, simpleName)
    ensures d.batchSize == 50
  {
    Dao(ResolveEntityName(annotation, simpleName), DefaultBatchSize)
  }

  /** The statement `removeById` executes, with `:id` bound to the key. */
  function DeleteStatement(entityName: string): string {
    "DELETE FROM " + entityName + " a WHERE a.id = :id"
  }

  /** The query `findAll` runs. */
  function SelectAllStatement(entityName: string): string {
    "from " + entityName
  }

  /** What a find by key on the persistence context returns. */
  function Lookup(store: map<Key, Entity>, k: Key): (r: Option<Entity>)
    ensures r.Some? <==> k in store
    ensures r.Some? ==> r.value == store[k]
  {
    if k in store then Some(store[k]) else None
  }

  /**
    `findByKey`: a direct find on the persistence context, which rejects a
    null key.
   */
  function FindByKey(ctx: Context, key: Option<Key>): (o: Outcome<Option<Entity>>)
    ensures key.None? ==> o == Outcome(Err(IllegalArgument), [])
    ensures key.Some? ==> o.result == Ok(Lookup(ctx.store, key.value)) && o.trace == [Find(key.value)]
  {
    match key
    case None => Outcome(Err(IllegalArgument), [])
    case Some(k) => Outcome(Ok(Lookup(ctx.store, k)), [Find(k)])
  }

  /**
    `save(bean, flush)`: a bean without a key is persisted and the argument
    itself is returned; a bean with a key is merged and the merge result is
    returned. A null bean fails on `getId()` before any call.
   */
  function Save(ctx: Context, bean: Option<Entity>, flush: bool): (o: Outcome<Entity>)
    ensures bean.None? ==> o == Outcome(Err(NullPointer), [])
    ensures bean.Some? && IsNew(bean.value) ==>
              o.result == Ok(bean.value) && o.trace == [Persist(bean.value)] + FlushTrace(flush)
    ensures bean.Some? && !IsNew(bean.value) ==>
              o.result == Ok(ctx.merged(bean.value)) && o.trace == [Event.Merge(bean.value)] + FlushTrace(flush)
  {
    match bean
    case None => Outcome(Err(NullPointer), [])
    case Some(e) =>
      if e.id.None? then Outcome(Ok(e), [Persist(e)] + FlushTrace(flush))
      else Outcome(Ok(ctx.merged(e)), [Event.Merge(e)] + FlushTrace(flush))
  }

  /**
    `merge(bean, flush)`: always merges, whatever the key state. The
    persistence context rejects a null bean.
   */
  function Merge(ctx: Context, bean: Option<Entity>, flush: bool): (o: Outcome<Entity>)
    ensures bean.None? ==> o == Outcome(Err(IllegalArgument), [])
    ensures bean.Some? ==>
              o.result == Ok(ctx.merged(bean.value)) && o.trace == [Event.Merge(bean.value)] + FlushTrace(flush)
  {
    match bean
    case None => Outcome(Err(IllegalArgument), [])
    case Some(e) => Outcome(Ok(ctx.merged(e)), [Event.Merge(e)] + FlushTrace(flush))
  }

  /**
    `remove(bean, flush)`: re-fetches the bean by its key and removes the
    fetched instance. A null bean fails on `getId()`; a null key fails in
    the find; a key with no stored record hands null to the context's
    remove, which rejects it.
   */
  function Remove(ctx: Context, bean: Option<Entity>, flush: bool): (o: Outcome<()>)
    ensures bean.None? ==> o == Outcome(Err(NullPointer), [])
    ensures o.result.Ok? <==> bean.Some? && bean.value.id.Some? && bean.value.id.value in ctx.store
    ensures o.result.Ok? ==>
              var k := bean.value.id.value;
              o.trace == [Find(k), Event.Remove(ctx.store[k])] + FlushTrace(flush)
    ensures o.result.Err? ==> forall i :: 0 <= i < |o.trace| ==> !o.trace[i].Remove?
  {
    match bean
    case None => Outcome(Err(NullPointer), [])
    case Some(e) =>
      var found := FindByKey(ctx, e.id);
      match found.result
      case Err(err) => Outcome(Err(err), found.trace)
      case Ok(None) => Outcome(Err(IllegalArgument), found.trace)
      case Ok(Some(managed)) => Outcome(Ok(()), found.trace + [Event.Remove(managed)] + FlushTrace(flush))
  }

  /**
    `removeById(key, flush)`: executes the textual delete statement with the
    key bound, without loading the entity. A null key is bound as is.
   */
  function RemoveById(dao: Dao, key: Option<Key>, flush: bool): (o: Outcome<()>)
    ensures o.result.Ok?
    ensures o.trace == [ExecDelete("DELETE FROM " + dao.entityName + " a WHERE a.id = :id", key)] + FlushTrace(flush)
  {
    Outcome(Ok(()), [ExecDelete(DeleteStatement(dao.entityName), key)] + FlushTrace(flush))
  }

  /** `findAll`: the rows the query `from <entityName>` selects. */
  function FindAll(dao: Dao, ctx: Context): (o: Outcome<seq<Entity>>)
    ensures o.result == Ok(ctx.resultList("from " + dao.entityName))
    ensures o.trace == [Select("from " + dao.entityName)]
  {
    var statement := SelectAllStatement(dao.entityName);
    Outcome(Ok(ctx.resultList(statement)), [Select(statement)])
  }

  /** The per-element call of the bulk save loop: `save(bean, false)`. */
  function SaveStep(ctx: Context): Option<Entity> -> Outcome<Entity> {
    bean => Save(ctx, bean, false)
  }

  /** The per-element call of the bulk merge loop: `merge(bean, false)`. */
  function MergeStep(ctx: Context): Option<Entity> -> Outcome<Entity> {
    bean => Merge(ctx, bean, false)
  }

  /** The per-element call of the bulk remove-by-key loop: `removeById(key, false)`. */
  function RemoveByIdStep(dao: Dao): Option<Key> -> Outcome<()> {
    key => RemoveById(dao, key, false)
  }

  /**
    `save(beans, flush)`: saves each element in order under the batch-flush
    policy and returns the very collection it was given, not the merge
    results. A null collection is returned as is, without any call.
   */
  function SaveAll(dao: Dao, ctx: Context, beans: Option<seq<Option<Entity>>>, flush: bool)
    : (o: Outcome<Option<seq<Option<Entity>>>>)
    ensures beans.None? ==> o == Outcome(Ok(None), [])
    ensures o.result.Ok? ==> o.result.value == beans
    ensures beans.Some? ==>
              (o.result.Ok? <==>
                 (forall i :: 0 <= i < |beans.value| ==> beans.value[i].Some?)
                 && (|beans.value| == 0 || !flush || dao.batchSize != 0))
  {
    match beans
    case None => Outcome(Ok(None), [])
    case Some(xs) =>
      var loop := BatchLoop(SaveStep(ctx), xs, flush, dao.batchSize, 0);
      Outcome(if loop.result.Ok? then Ok(beans) else Err(loop.result.error), loop.trace)
  }

  /** `merge(beans, flush)`: as `SaveAll`, merging every element. */
  function MergeAll(dao: Dao, ctx: Context, beans: Option<seq<Option<Entity>>>, flush: bool)
    : (o: Outcome<Option<seq<Option<Entity>>>>)
    ensures beans.None? ==> o == Outcome(Ok(None), [])
    ensures o.result.Ok? ==> o.result.value == beans
    ensures beans.Some? ==>
              (o.result.Ok? <==>
                 (forall i :: 0 <= i < |beans.value| ==> beans.value[i].Some?)
                 && (|beans.value| == 0 || !flush || dao.batchSize != 0))
  {
    match beans
    case None => Outcome(Ok(None), [])
    case Some(xs) =>
      var loop := BatchLoop(MergeStep(ctx), xs, flush, dao.batchSize, 0);
      Outcome(if loop.result.Ok? then Ok(beans) else Err(loop.result.error), loop.trace)
  }

  /** `removeById(keys, flush)`: one delete statement per key, in order. */
  function RemoveAllById(dao: Dao, keys: Option<seq<Option<Key>>>, flush: bool): (o: Outcome<()>)
    ensures keys.None? ==> o == Outcome(Ok(()), [])
    ensures keys.Some? ==> (o.result.Ok? <==> |keys.value| == 0 || !flush || dao.batchSize != 0)
  {
    match keys
    case None => Outcome(Ok(()), [])
    case Some(ks) => BatchLoop(RemoveByIdStep(dao), ks, flush, dao.batchSize, 0)
  }

  /** A bean with a key is saved exactly as `merge` would handle it. */
  lemma SaveOfStoredIsMerge(ctx: Context, e: Entity, flush: bool)
    requires !IsNew(e)
    ensures Save(ctx, Some(e), flush) == Merge(ctx, Some(e), flush)
  {
  }

  /**
    A bean without a key is persisted, never merged, and comes back as the
    argument; a bean with a key is merged and never persisted; `merge` never
    persists, whatever the key state. Each performs exactly one store write,
    as the first event, of the argument.
   */
  lemma PersistOnlyForNew(ctx: Context, e: Entity, flush: bool)
    ensures var t := Save(ctx, Some(e), flush).trace;
            IsNew(e) ==> t[0] == Persist(e)
                         && forall i :: 0 <= i < |t| ==> !t[i].Merge? && (i > 0 ==> !t[i].Persist?)
    ensures var t := Save(ctx, Some(e), flush).trace;
            !IsNew(e) ==> t[0] == Event.Merge(e)
                          && forall i :: 0 <= i < |t| ==> !t[i].Persist? && (i > 0 ==> !t[i].Merge?)
    ensures var t := Merge(ctx, Some(e), flush).trace;
            t[0] == Event.Merge(e) && forall i :: 0 <= i < |t| ==> !t[i].Persist? && (i > 0 ==> !t[i].Merge?)
    ensures Count(Save(ctx, Some(e), flush).trace, Persist(e)) == if IsNew(e) then 1 else 0
    ensures Count(Save(ctx, Some(e), flush).trace, Event.Merge(e)) == if IsNew(e) then 0 else 1
    ensures Count(Merge(ctx, Some(e), flush).trace, Persist(e)) == 0
  {
    CountAppend([Persist(e)], FlushTrace(flush), Persist(e));
    CountAppend([Event.Merge(e)], FlushTrace(flush), Persist(e));
    CountAppend([Persist(e)], FlushTrace(flush), Event.Merge(e));
    CountAppend([Event.Merge(e)], FlushTrace(flush), Event.Merge(e));
    assert Count(FlushTrace(flush), Persist(e)) == 0 by {
      if flush { assert FlushTrace(flush)[1..][1..] == []; }
    }
    assert Count(FlushTrace(flush), Event.Merge(e)) == 0 by {
      if flush { assert FlushTrace(flush)[1..][1..] == []; }
    }
  }

  /**
    Each single operation calls `flushEntityManager(flush)` once, after its
    store call: the flagged trace is the unflagged one plus the flush.
   */
  lemma FlushComesLast(dao: Dao, ctx: Context, bean: Option<Entity>, key: Option<Key>)
    ensures Save(ctx, bean, true).trace == Save(ctx, bean, false).trace
                                          + (if bean.Some? then [Flush, Clear] else [])
    ensures Merge(ctx, bean, true).trace == Merge(ctx, bean, false).trace
                                           + (if bean.Some? then [Flush, Clear] else [])
    ensures Remove(ctx, bean, true).trace == Remove(ctx, bean, false).trace
                                            + (if Remove(ctx, bean, true).result.Ok? then [Flush, Clear] else [])
    ensures RemoveById(dao, key, true).trace == RemoveById(dao, key, false).trace + [Flush, Clear]
  {
  }

  /**
    Remove-by-key runs one delete statement and never loads the entity;
    remove of a bean always loads it first.
   */
  lemma RemoveByIdNeverLoads(dao: Dao, ctx: Context, key: Option<Key>, bean: Option<Entity>, flush: bool)
    ensures forall i :: 0 <= i < |RemoveById(dao, key, flush).trace| ==> !RemoveById(dao, key, flush).trace[i].Find?
    ensures Remove(ctx, bean, flush).result.Ok? ==> Remove(ctx, bean, flush).trace[0].Find?
  {
  }

  /** The elements of a bulk save or merge flush nothing themselves. */
  lemma BeanStepsFlushFree(ctx: Context, beans: seq<Option<Entity>>)
    ensures FlushFree(StepTraces(SaveStep(ctx), beans))
    ensures FlushFree(StepTraces(MergeStep(ctx), beans))
  {
    forall i, ev | 0 <= i < |beans| && (ev == Flush || ev == Clear)
      ensures Count(Save(ctx, beans[i], false).trace, ev) == 0
      ensures Count(Merge(ctx, beans[i], false).trace, ev) == 0
    {
    }
  }

  /** The elements of a bulk remove-by-key flush nothing themselves. */
  lemma KeyStepsFlushFree(dao: Dao, keys: seq<Option<Key>>)
    ensures FlushFree(StepTraces(RemoveByIdStep(dao), keys))
  {
    forall i, ev | 0 <= i < |keys| && (ev == Flush || ev == Clear)
      ensures Count(RemoveById(dao, keys[i], false).trace, ev) == 0
    {
    }
  }

  /**
    Bulk save over N non-null beans: each bean saved in order with its own
    flush off; with flushing requested and a positive batch size, a flush
    and a clear after every batch-th bean and none after a final partial
    batch, floor(N / batch) of each; without flushing, none at all. The
    collection returned is the one given.
   */
  lemma SaveAllSchedule(dao: Dao, ctx: Context, xs: seq<Option<Entity>>, flush: bool)
    requires forall i :: 0 <= i < |xs| ==> xs[i].Some?
    requires !flush || dao.batchSize != 0
    ensures SaveAll(dao, ctx, Some(xs), flush)
         == Outcome(Ok(Some(xs)), Scheduled(StepTraces(SaveStep(ctx), xs), flush, dao.batchSize))
    ensures flush && dao.batchSize > 0 ==>
              Count(SaveAll(dao, ctx, Some(xs), flush).trace, Flush) == |xs| / dao.batchSize
              && Count(SaveAll(dao, ctx, Some(xs), flush).trace, Clear) == |xs| / dao.batchSize
    ensures !flush ==>
              Count(SaveAll(dao, ctx, Some(xs), flush).trace, Flush) == 0
              && Count(SaveAll(dao, ctx, Some(xs), flush).trace, Clear) == 0
  {
    BeanStepsFlushFree(ctx, xs);
    BulkSchedule(SaveStep(ctx), xs, flush, dao.batchSize);
  }

  /** Bulk merge follows the same schedule as bulk save. */
  lemma MergeAllSchedule(dao: Dao, ctx: Context, xs: seq<Option<Entity>>, flush: bool)
    requires forall i :: 0 <= i < |xs| ==> xs[i].Some?
    requires !flush || dao.batchSize != 0
    ensures MergeAll(dao, ctx, Some(xs), flush)
         == Outcome(Ok(Some(xs)), Scheduled(StepTraces(MergeStep(ctx), xs), flush, dao.batchSize))
    ensures flush && dao.batchSize > 0 ==>
              Count(MergeAll(dao, ctx, Some(xs), flush).trace, Flush) == |xs| / dao.batchSize
              && Count(MergeAll(dao, ctx, Some(xs), flush).trace, Clear) == |xs| / dao.batchSize
    ensures !flush ==>
              Count(MergeAll(dao, ctx, Some(xs), flush).trace, Flush) == 0
              && Count(MergeAll(dao, ctx, Some(xs), flush).trace, Clear) == 0
  {
    BeanStepsFlushFree(ctx, xs);
    BulkSchedule(MergeStep(ctx), xs, flush, dao.batchSize);
  }

  /** Bulk remove-by-key follows the same schedule, whatever the keys. */
  lemma RemoveAllByIdSchedule(dao: Dao, ks: seq<Option<Key>>, flush: bool)
    requires !flush || dao.batchSize != 0
    ensures RemoveAllById(dao, Some(ks), flush)
         == Outcome(Ok(()), Scheduled(StepTraces(RemoveByIdStep(dao), ks), flush, dao.batchSize))
    ensures flush && dao.batchSize > 0 ==>
              Count(RemoveAllById(dao, Some(ks), flush).trace, Flush) == |ks| / dao.batchSize
              && Count(RemoveAllById(dao, Some(ks), flush).trace, Clear) == |ks| / dao.batchSize
    ensures !flush ==>
              Count(RemoveAllById(dao, Some(ks), flush).trace, Flush) == 0
              && Count(RemoveAllById(dao, Some(ks), flush).trace, Clear) == 0
  {
    KeyStepsFlushFree(dao, ks);
    BulkSchedule(RemoveByIdStep(dao), ks, flush, dao.batchSize);
  }

  /**
    A null bean at position `j` of a bulk save stops the loop there with a
    null-pointer failure, after the beans before it were saved on schedule.
   */
  lemma SaveAllStopsAtNull(dao: Dao, ctx: Context, xs: seq<Option<Entity>>, flush: bool, j: nat)
    requires j < |xs| && xs[j].None?
    requires forall i :: 0 <= i < j ==> xs[i].Some?
    requires !flush || dao.batchSize != 0
    ensures SaveAll(dao, ctx, Some(xs), flush)
         == Outcome(Err(NullPointer), Scheduled(StepTraces(SaveStep(ctx), xs[..j]), flush, dao.batchSize))
  {
    BatchLoopStopsAtFailure(SaveStep(ctx), xs, flush, dao.batchSize, 0, j);
  }

  /** The accessor's operations never invoke a façade hook. */
  lemma AccessorHookFree(dao: Dao, ctx: Context, beans: Option<seq<Option<Entity>>>, keys: Option<seq<Option<Key>>>, flush: bool)
    ensures HookFree(SaveAll(dao, ctx, beans, flush).trace)
    ensures HookFree(MergeAll(dao, ctx, beans, flush).trace)
    ensures HookFree(RemoveAllById(dao, keys, flush).trace)
  {
    if beans.Some? {
      BatchLoopHookFree(SaveStep(ctx), beans.value, flush, dao.batchSize, 0);
      BatchLoopHookFree(MergeStep(ctx), beans.value, flush, dao.batchSize, 0);
    }
    if keys.Some? {
      BatchLoopHookFree(RemoveByIdStep(dao), keys.value, flush, dao.batchSize, 0);
    }
  }
}
