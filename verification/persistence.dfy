/**
  The vocabulary shared by the record accessor and the business façade: the
  entity shape, the persistence context seen as an opaque collaborator, and
  the trace of calls the two layers make on it.
 */
module Persistence {
  import opened Wrappers

  /** The entity key; the source accepts any serializable type. */
  type Key = int

  /** A `java.util.Date`, as milliseconds since the epoch. */
  type Date = int

  /**
    An entity of the audited shape: an optional key plus the two audit
    timestamps. A plain (non-audited) entity simply leaves both dates `None`.
   */
  datatype Entity = Entity(id: Option<Key>, createdOn: Option<Date>, modifiedOn: Option<Date>)

  /** A transient entity: its key has not been assigned yet. */
  predicate IsNew(e: Entity) {
    e.id.None?
  }

  /**
    One observable call. The first group are completed calls on the
    persistence context; the last four are the façade's overridable hooks.
   */
  datatype Event =
    | Persist(entity: Entity)
    | Merge(entity: Entity)
    | Find(key: Key)
    | Remove(entity: Entity)
    | ExecDelete(statement: string, param: Option<Key>)
    | Select(statement: string)
    | Flush
    | Clear
    | BeforeSave(entity: Entity)
    | AfterSave(entity: Entity)
    | BeforeRemove(entity: Entity)
    | AfterRemove(entity: Entity)
  {
    predicate IsHook() {
      BeforeSave? || AfterSave? || BeforeRemove? || AfterRemove?
    }
  }

  /** What a call returns or throws, together with the calls it made. */
  datatype Outcome<+T> = Outcome(result: Result<T, Error>, trace: seq<Event>)

  /**
    The persistence context as this layer sees it during one call: the
    records a find by key can return, the instance a merge hands back for a
    given argument, and the rows a query text selects.
   */
  datatype Context = Context(
    store: map<Key, Entity>,
    merged: Entity -> Entity,
    resultList: string -> seq<Entity>)

  /** Every stored record carries the key it is stored under. */
  ghost predicate WellFormedStore(store: map<Key, Entity>) {
    forall k :: k in store ==> store[k].id == Some(k)
  }

  /** A trace that invokes none of the façade hooks. */
  ghost predicate HookFree(trace: seq<Event>) {
    forall i :: 0 <= i < |trace| ==> !trace[i].IsHook()
  }

  /** Number of occurrences of `ev` in `trace`. */
  function Count(trace: seq<Event>, ev: Event): nat {
    if |trace| == 0 then 0
    else (if trace[0] == ev then 1 else 0) + Count(trace[1..], ev)
  }

  lemma CountCons(a: Event, t: seq<Event>, ev: Event)
    ensures Count([a] + t, ev) == (if a == ev then 1 else 0) + Count(t, ev)
  {
    assert ([a] + t)[0] == a;
    assert ([a] + t)[1..] == t;
  }

  lemma CountAppend(a: seq<Event>, b: seq<Event>, ev: Event)
    ensures Count(a + b, ev) == Count(a, ev) + Count(b, ev)
  {
    if |a| == 0 {
      assert a + b == b;
    } else {
      assert (a + b)[0] == a[0];
      assert (a + b)[1..] == a[1..] + b;
      CountAppend(a[1..], b, ev);
    }
  }

  /** The events `flushEntityManager(flush)` emits. */
  function FlushTrace(flush: bool): (r: seq<Event>)
    ensures |r| == if flush then 2 else 0
    ensures (Flush in r <==> flush) && (Clear in r <==> flush)
    ensures flush ==> r[0] == Flush && r[1] == Clear
  {
    if flush then [Flush, Clear] else []
  }

  /** A requested flush emits one flush and one clear. */
  lemma CountFlushTrace(flush: bool, ev: Event)
    requires ev == Flush || ev == Clear
    ensures Count(FlushTrace(flush), ev) == if flush then 1 else 0
  {
    if flush {
      var t := FlushTrace(flush);
      assert t[1..] == [Clear] && t[1..][1..] == [];
      assert Count([Clear], ev) == (if ev == Clear then 1 else 0) + Count([], ev);
      assert Count(t, ev) == (if ev == Flush then 1 else 0) + Count([Clear], ev);
    }
  }

  /** A flush emits nothing but a flush and a clear. */
  lemma CountFlushTraceOther(flush: bool, ev: Event)
    requires ev != Flush && ev != Clear
    ensures Count(FlushTrace(flush), ev) == 0
  {
    if flush {
      assert FlushTrace(flush) == [Flush] + ([Clear] + []);
      CountCons(Clear, [], ev);
      CountCons(Flush, [Clear], ev);
    }
  }

  /** The concatenation of a sequence of traces, in order. */
  function Flatten(chunks: seq<seq<Event>>): seq<Event> {
    if |chunks| == 0 then [] else chunks[0] + Flatten(chunks[1..])
  }

  lemma {:induction false} CountFlattenZero(chunks: seq<seq<Event>>, ev: Event)
    requires forall i :: 0 <= i < |chunks| ==> Count(chunks[i], ev) == 0
    ensures Count(Flatten(chunks), ev) == 0
    decreases |chunks|
  {
    if |chunks| > 0 {
      CountAppend(chunks[0], Flatten(chunks[1..]), ev);
      assert forall i :: 0 <= i < |chunks[1..]| ==> chunks[1..][i] == chunks[i + 1];
      CountFlattenZero(chunks[1..], ev);
    }
  }

  lemma FlattenAppend(a: seq<seq<Event>>, b: seq<seq<Event>>)
    ensures Flatten(a + b) == Flatten(a) + Flatten(b)
  {
    if |a| == 0 {
      assert a + b == b;
    } else {
      assert (a + b)[0] == a[0];
      assert (a + b)[1..] == a[1..] + b;
      FlattenAppend(a[1..], b);
    }
  }
}
