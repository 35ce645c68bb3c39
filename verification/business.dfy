/**
  The business façade (BusinessObjectImpl): null-argument guards, the
  before/after hooks around single save, merge and remove, a null-safe find
  by key, remove-by-key composed as find then hooked remove, and bulk paths
  that hand straight to the accessor. A hook is observed as an event; its
  default body does nothing.
 */
module Business {
  import opened Wrappers
  import opened Persistence
  import DataAccess
  import Batching

  /** `findByKey`: a null key gives null without touching the accessor. */
  function FindByKey(ctx: Context, key: Option<Key>): (o: Outcome<Option<Entity>>)
    ensures key.None? ==> o == Outcome(Ok(None), [])
    ensures key.Some? ==> o == DataAccess.FindByKey(ctx, key)
    ensures o.result.Ok?
    ensures o.result.value.Some? <==> key.Some? && key.value in ctx.store
  {
    match key
    case None => Outcome(Ok(None), [])
    case Some(_) => DataAccess.FindByKey(ctx, key)
  }

  /**
    Wraps an accessor save or merge of `e` in the save hooks: `beforeSave`
    sees the argument, `afterSave` the accessor's result.
   */
  function SaveHooked(e: Entity, inner: Outcome<Entity>): Outcome<Entity> {
    match inner.result
    case Err(err) => Outcome(Err(err), [BeforeSave(e)] + inner.trace)
    case Ok(r) => Outcome(Ok(r), [BeforeSave(e)] + inner.trace + [AfterSave(r)])
  }

  /** `save(bean, flush)`: guard, `beforeSave`, accessor save, `afterSave`. */
  function Save(ctx: Context, bean: Option<Entity>, flush: bool): (o: Outcome<Entity>)
    ensures bean.None? ==> o == Outcome(Err(NullPointer), [])
    ensures bean.Some? ==>
              var inner := DataAccess.Save(ctx, bean, flush);
              o.result == inner.result
              && o.trace == [BeforeSave(bean.value)] + inner.trace + [AfterSave(inner.result.value)]
  {
    match bean
    case None => Outcome(Err(NullPointer), [])
    case Some(e) => SaveHooked(e, DataAccess.Save(ctx, bean, flush))
  }

  /** `merge(bean, flush)`: the save hooks around the accessor's merge. */
  function Merge(ctx: Context, bean: Option<Entity>, flush: bool): (o: Outcome<Entity>)
    ensures bean.None? ==> o == Outcome(Err(NullPointer), [])
    ensures bean.Some? ==>
              var inner := DataAccess.Merge(ctx, bean, flush);
              o.result == inner.result
              && o.trace == [BeforeSave(bean.value)] + inner.trace + [AfterSave(inner.result.value)]
  {
    match bean
    case None => Outcome(Err(NullPointer), [])
    case Some(e) => SaveHooked(e, DataAccess.Merge(ctx, bean, flush))
  }

  /**
    `remove(bean, flush)`: guard, `beforeRemove`, accessor remove,
    `afterRemove`, both hooks seeing the argument. A failing accessor remove
    skips `afterRemove`.
   */
  function Remove(ctx: Context, bean: Option<Entity>, flush: bool): (o: Outcome<()>)
    ensures bean.None? ==> o == Outcome(Err(NullPointer), [])
    ensures bean.Some? ==>
              var inner := DataAccess.Remove(ctx, bean, flush);
              o.result == inner.result
              && o.trace == [BeforeRemove(bean.value)] + inner.trace
                            + (if inner.result.Ok? then [AfterRemove(bean.value)] else [])
  {
    match bean
    case None => Outcome(Err(NullPointer), [])
    case Some(e) =>
      var inner := DataAccess.Remove(ctx, bean, flush);
      match inner.result
      case Err(err) => Outcome(Err(err), [BeforeRemove(e)] + inner.trace)
      case Ok(_) => Outcome(Ok(()), [BeforeRemove(e)] + inner.trace + [AfterRemove(e)])
  }

  /**
    `removeById(key, flush)`: finds the entity and, when there is one,
    removes it through the hooked `remove`; answers whether it found one.
   */
  function RemoveById(ctx: Context, key: Option<Key>, flush: bool): (o: Outcome<bool>)
    ensures o.result == Ok(false) <==> key.None? || key.value !in ctx.store
    ensures o.result == Ok(true) ==> key.Some? && key.value in ctx.store
    ensures o.result == Ok(false) ==> o.trace == FindByKey(ctx, key).trace
  {
    var found := FindByKey(ctx, key);
    match found.result
    case Err(err) => Outcome(Err(err), found.trace)
    case Ok(None) => Outcome(Ok(false), found.trace)
    case Ok(Some(e)) =>
      var removed := Remove(ctx, Some(e), flush);
      Outcome(if removed.result.Ok? then Ok(true) else Err(removed.result.error), found.trace + removed.trace)
  }

  /** `save(beans, flush)`: the accessor's bulk save, no hooks, no guard. */
  function SaveAll(dao: DataAccess.Dao, ctx: Context, beans: Option<seq<Option<Entity>>>, flush: bool)
    : (o: Outcome<Option<seq<Option<Entity>>>>)
    ensures o == DataAccess.SaveAll(dao, ctx, beans, flush)
    ensures HookFree(o.trace)
  {
    DataAccess.AccessorHookFree(dao, ctx, beans, None, flush);
    DataAccess.SaveAll(dao, ctx, beans, flush)
  }

  /** `merge(beans, flush)`: the accessor's bulk merge, no hooks, no guard. */
  function MergeAll(dao: DataAccess.Dao, ctx: Context, beans: Option<seq<Option<Entity>>>, flush: bool)
    : (o: Outcome<Option<seq<Option<Entity>>>>)
    ensures o == DataAccess.MergeAll(dao, ctx, beans, flush)
    ensures HookFree(o.trace)
  {
    DataAccess.AccessorHookFree(dao, ctx, beans, None, flush);
    DataAccess.MergeAll(dao, ctx, beans, flush)
  }

  /** `removeById(keys, flush)`: the accessor's bulk remove-by-key, no hooks. */
  function RemoveAllById(dao: DataAccess.Dao, keys: Option<seq<Option<Key>>>, flush: bool): (o: Outcome<()>)
    ensures o == DataAccess.RemoveAllById(dao, keys, flush)
    ensures HookFree(o.trace)
  {
    match keys
    case None => DataAccess.RemoveAllById(dao, keys, flush)
    case Some(ks) =>
      Batching.BatchLoopHookFree(DataAccess.RemoveByIdStep(dao), ks, flush, dao.batchSize, 0);
      DataAccess.RemoveAllById(dao, keys, flush)
  }

  /** `findAll`: the accessor's full scan. */
  function FindAll(dao: DataAccess.Dao, ctx: Context): (o: Outcome<seq<Entity>>)
    ensures o == DataAccess.FindAll(dao, ctx)
  {
    DataAccess.FindAll(dao, ctx)
  }

  // The one-argument overloads: the two-argument forms with flush off.

  function SaveDefault(ctx: Context, bean: Option<Entity>): (o: Outcome<Entity>)
    ensures o == Save(ctx, bean, false)
    ensures Flush !in o.trace && Clear !in o.trace
  {
    Save(ctx, bean, false)
  }

  function MergeDefault(ctx: Context, bean: Option<Entity>): (o: Outcome<Entity>)
    ensures o == Merge(ctx, bean, false)
    ensures Flush !in o.trace && Clear !in o.trace
  {
    Merge(ctx, bean, false)
  }

  function RemoveDefault(ctx: Context, bean: Option<Entity>): (o: Outcome<()>)
    ensures o == Remove(ctx, bean, false)
    ensures Flush !in o.trace && Clear !in o.trace
  {
    Remove(ctx, bean, false)
  }

  function RemoveByIdDefault(ctx: Context, key: Option<Key>): (o: Outcome<bool>)
    ensures o == RemoveById(ctx, key, false)
    ensures Flush !in o.trace && Clear !in o.trace
  {
    RemoveById(ctx, key, false)
  }

  /** `save(beans)`: unlike the two-argument form, rejects a null collection. */
  function SaveAllDefault(dao: DataAccess.Dao, ctx: Context, beans: Option<seq<Option<Entity>>>)
    : (o: Outcome<Option<seq<Option<Entity>>>>)
    ensures beans.None? ==> o == Outcome(Err(NullPointer), [])
    ensures beans.Some? ==> o == SaveAll(dao, ctx, beans, false)
  {
    if beans.None? then Outcome(Err(NullPointer), []) else SaveAll(dao, ctx, beans, false)
  }

  /** `merge(beans)`: unlike the two-argument form, rejects a null collection. */
  function MergeAllDefault(dao: DataAccess.Dao, ctx: Context, beans: Option<seq<Option<Entity>>>)
    : (o: Outcome<Option<seq<Option<Entity>>>>)
    ensures beans.None? ==> o == Outcome(Err(NullPointer), [])
    ensures beans.Some? ==> o == MergeAll(dao, ctx, beans, false)
  {
    if beans.None? then Outcome(Err(NullPointer), []) else MergeAll(dao, ctx, beans, false)
  }

  /** `removeById(keys)`: no null check, the two-argument form with flush off. */
  function RemoveAllByIdDefault(dao: DataAccess.Dao, keys: Option<seq<Option<Key>>>): (o: Outcome<()>)
    ensures o == RemoveAllById(dao, keys, false)
  {
    RemoveAllById(dao, keys, false)
  }

  /**
    In a store whose records carry their own keys, removing a stored key
    through the façade loads the entity, runs each remove hook exactly once
    around the accessor's re-fetch and remove, and answers true.
   */
  lemma RemoveByIdOfStoredKey(ctx: Context, k: Key, flush: bool)
    requires WellFormedStore(ctx.store)
    requires k in ctx.store
    ensures var e := ctx.store[k];
            RemoveById(ctx, Some(k), flush)
            == Outcome(Ok(true),
                       [Find(k), BeforeRemove(e), Find(k), Event.Remove(e)] + FlushTrace(flush) + [AfterRemove(e)])
  {
    var e := ctx.store[k];
    assert e.id == Some(k);
  }

  /**
    A null or unknown key removes nothing through the façade: no hook and
    no remove call, at most the one find.
   */
  lemma RemoveByIdOfMissingKey(ctx: Context, key: Option<Key>, flush: bool)
    requires key.None? || key.value !in ctx.store
    ensures RemoveById(ctx, key, flush).result == Ok(false)
    ensures RemoveById(ctx, key, flush).trace == if key.None? then [] else [Find(key.value)]
  {
  }

  /** How often a non-flush event occurs in the façade's remove-by-key trace. */
  lemma CountRemoveByIdTrace(k: Key, e: Entity, flush: bool, ev: Event)
    requires ev != Flush && ev != Clear
    ensures Count([Find(k), BeforeRemove(e), Find(k), Event.Remove(e)] + FlushTrace(flush) + [AfterRemove(e)], ev)
         == (if ev == Find(k) then 2 else 0) + (if ev == BeforeRemove(e) then 1 else 0)
            + (if ev == Event.Remove(e) then 1 else 0) + (if ev == AfterRemove(e) then 1 else 0)
  {
    var tail := FlushTrace(flush) + [AfterRemove(e)];
    CountAppend(FlushTrace(flush), [AfterRemove(e)], ev);
    CountFlushTraceOther(flush, ev);
    CountCons(AfterRemove(e), [], ev);
    CountCons(Event.Remove(e), tail, ev);
    CountCons(Find(k), [Event.Remove(e)] + tail, ev);
    CountCons(BeforeRemove(e), [Find(k)] + ([Event.Remove(e)] + tail), ev);
    CountCons(Find(k), [BeforeRemove(e)] + ([Find(k)] + ([Event.Remove(e)] + tail)), ev);
    assert [Find(k), BeforeRemove(e), Find(k), Event.Remove(e)] + FlushTrace(flush) + [AfterRemove(e)]
        == [Find(k)] + ([BeforeRemove(e)] + ([Find(k)] + ([Event.Remove(e)] + tail)));
  }

  /**
    The two remove-by-key paths differ: the accessor's runs a delete
    statement with no find and no hook; the façade's loads the entity and
    runs both remove hooks.
   */
  lemma RemoveByIdLayersDiffer(dao: DataAccess.Dao, ctx: Context, k: Key, flush: bool)
    requires WellFormedStore(ctx.store)
    requires k in ctx.store
    ensures HookFree(DataAccess.RemoveById(dao, Some(k), flush).trace)
    ensures Count(DataAccess.RemoveById(dao, Some(k), flush).trace, Find(k)) == 0
    ensures Count(RemoveById(ctx, Some(k), flush).trace, Find(k)) == 2
    ensures Count(RemoveById(ctx, Some(k), flush).trace, BeforeRemove(ctx.store[k])) == 1
    ensures Count(RemoveById(ctx, Some(k), flush).trace, AfterRemove(ctx.store[k])) == 1
  {
    var e := ctx.store[k];
    RemoveByIdOfStoredKey(ctx, k, flush);
    CountRemoveByIdTrace(k, e, flush, Find(k));
    CountRemoveByIdTrace(k, e, flush, BeforeRemove(e));
    CountRemoveByIdTrace(k, e, flush, AfterRemove(e));
    var d := DataAccess.RemoveById(dao, Some(k), flush).trace;
    assert d == [d[0]] + FlushTrace(flush);
    CountCons(d[0], FlushTrace(flush), Find(k));
    CountFlushTraceOther(flush, Find(k));
  }

  /** The façade's bulk paths invoke no hook, for any input. */
  lemma BulkPathsHookFree(dao: DataAccess.Dao, ctx: Context, beans: Option<seq<Option<Entity>>>, keys: Option<seq<Option<Key>>>, flush: bool)
    ensures HookFree(SaveAll(dao, ctx, beans, flush).trace)
    ensures HookFree(MergeAll(dao, ctx, beans, flush).trace)
    ensures HookFree(RemoveAllById(dao, keys, flush).trace)
    ensures HookFree(SaveAllDefault(dao, ctx, beans).trace)
    ensures HookFree(MergeAllDefault(dao, ctx, beans).trace)
    ensures HookFree(RemoveAllByIdDefault(dao, keys).trace)
  {
  }

  /**
    A single save or merge through the façade runs each save hook exactly
    once, the before hook on the argument and the after hook on the result.
   */
  lemma SaveHooksOnce(ctx: Context, e: Entity, flush: bool)
    ensures var o := Save(ctx, Some(e), flush);
            o.result.Ok? && o.trace[0] == BeforeSave(e) && o.trace[|o.trace| - 1] == AfterSave(o.result.value)
    ensures var o := Merge(ctx, Some(e), flush);
            o.result.Ok? && o.trace[0] == BeforeSave(e) && o.trace[|o.trace| - 1] == AfterSave(o.result.value)
    ensures HookFree(Save(ctx, Some(e), flush).trace[1..|Save(ctx, Some(e), flush).trace| - 1])
    ensures HookFree(Merge(ctx, Some(e), flush).trace[1..|Merge(ctx, Some(e), flush).trace| - 1])
  {
  }
}
