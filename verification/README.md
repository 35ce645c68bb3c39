# j2ee-patterns persistence core in Dafny

A model of the generic persistence layer of eidoscode j2ee-patterns and of
its two small helpers.

The layer has two parts:

- **The record accessor** (`DataAccessObjectImpl`). It decides per entity
  whether to insert (`persist`) or update (`merge`). Remove re-fetches the
  entity first. Remove by key runs a textual `DELETE` statement. The bulk
  save, merge and remove-by-key loops share one batch-flush policy: after
  every B-th element, flush and clear the persistence context, but only
  when the caller asked for flushing. There is no flush after a final
  partial batch.
- **The business façade** (`BusinessObjectImpl`). It guards against null
  arguments and calls the `beforeSave`/`afterSave` and
  `beforeRemove`/`afterRemove` hooks around single save, merge and remove.
  Its `findByKey` is null-safe. Its `removeById` is a find followed by a
  hooked remove, and it answers whether it found the entity. The bulk
  paths go straight to the accessor.

The helpers are:

- `CharsetMediaType.generateMap`, the `key=value` parameter-line parser
  behind the two JSON media-type constants.
- The two audit listeners that stamp the creation and modification dates.

The persistence context is an opaque collaborator. Each operation returns
what the Java method returns or throws. Alongside, it returns the trace of
calls it made: persist, merge, find, remove, the delete statement, flush,
clear and the four hooks. A store call that throws leaves no event. Java
`null` is `Option.None`, and an exception is `Result.Err` with the
exception's kind.

Files:

- `wrappers.dfy`: `Option`, `Result`, the exception kinds.
- `persistence.dfy`: entity, event, outcome, persistence context, event
  counting.
- `batching.dfy`: the shared bulk loop, and the schedule it is proved to
  follow.
- `data_access.dfy`: the record accessor.
- `business.dfy`: the façade.
- `charset_media_type.dfy`: `generateMap`, Java's `trim`/`split`, and the
  two constants.
- `audit_listeners.dfy`: the creation and modification listeners.

The bulk loop `Batching.BatchLoop` copies the Java loop with its running
counter. `Batching.Scheduled` is an independent definition of the same
policy, stated by absolute position. The two are proved equal, and the
flush counts are derived from the second.

`ParseLine` follows Java's `split`, segment by segment. `LineSpec` is an
independent reading stated on the text alone, and the two are proved to
agree.

Two facts about the code are worth keeping in mind:

- The façade's bulk paths call the accessor directly and run no hook
  (`BusinessObjectImpl.java` lines 214-216, 282-284, 381-383).
- The by-key delete is `DELETE FROM <entityName> a WHERE a.id = :id`.

## Model

| member | source | states |
|---|---|---|
| DataAccess.ResolveEntityName | src/main/java/com/eidoscode/framework/persistence/dao/impl/DataAccessObjectImpl.java:55-72 | the entity name is the `@Entity` name when the annotation is present and its name non-empty, otherwise the class's simple name |
| DataAccess.NewDao | src/main/java/com/eidoscode/framework/persistence/dao/impl/DataAccessObjectImpl.java:46-74 | a new accessor carries the resolved name, fixed from then on, and the default batch size 50 |
| DataAccess.Save | src/main/java/com/eidoscode/framework/persistence/dao/impl/DataAccessObjectImpl.java:119-130 | a null bean throws a null-pointer error before any call; a bean without a key is persisted, comes back itself, and the trace is one persist then the flush pair when asked; a bean with a key is merged and the merge result comes back |
| DataAccess.Merge | src/main/java/com/eidoscode/framework/persistence/dao/impl/DataAccessObjectImpl.java:173-179 | always one merge, whatever the key state, returning the merge result; a null bean is rejected by the persistence context with no event |
| DataAccess.Remove | src/main/java/com/eidoscode/framework/persistence/dao/impl/DataAccessObjectImpl.java:232-237 | succeeds exactly when the bean is non-null and its key is stored; then the trace is find by that key, remove of the fetched record, the flush pair when asked; no failure removes anything |
| DataAccess.RemoveById | src/main/java/com/eidoscode/framework/persistence/dao/impl/DataAccessObjectImpl.java:250-265 | one execution of `DELETE FROM <entityName> a WHERE a.id = :id` with the key bound, null included, then the flush pair when asked; never fails in this model, where the statement execution and the flush always succeed |
| DataAccess.FindAll | src/main/java/com/eidoscode/framework/persistence/dao/impl/DataAccessObjectImpl.java:315-319 | runs the query `from <entityName>` once and returns the rows it selects |
| DataAccess.FindByKey | src/main/java/com/eidoscode/framework/persistence/dao/impl/DataAccessObjectImpl.java:443-446 | a null key is rejected by the persistence context; otherwise one find, returning the stored record or null |
| DataAccess.SaveAll | src/main/java/com/eidoscode/framework/persistence/dao/impl/DataAccessObjectImpl.java:145-159 | a null collection comes back null with no call; success returns the very collection given; succeeds exactly when no element is null and the batch size is not zero under flushing |
| DataAccess.MergeAll | src/main/java/com/eidoscode/framework/persistence/dao/impl/DataAccessObjectImpl.java:193-207 | as for bulk save: null passes through, the collection given is returned, success exactly when no element is null and no division by a zero batch size |
| DataAccess.RemoveAllById | src/main/java/com/eidoscode/framework/persistence/dao/impl/DataAccessObjectImpl.java:279-292 | a null collection makes no call; fails only on a zero batch size under flushing with at least one key |
| DataAccess.SaveOfStoredIsMerge | src/main/java/com/eidoscode/framework/persistence/dao/impl/DataAccessObjectImpl.java:120-126 | saving a bean that has a key is exactly a merge of it, result and trace |
| DataAccess.PersistOnlyForNew | src/main/java/com/eidoscode/framework/persistence/dao/impl/DataAccessObjectImpl.java:119-130 | save of a new bean writes first a persist of the argument and no merge or further persist of any entity; save of a keyed bean and merge write first a merge of the argument and no persist or further merge of any entity |
| DataAccess.FlushComesLast | src/main/java/com/eidoscode/framework/persistence/dao/impl/DataAccessObjectImpl.java:301-306 | in each single operation the flag adds exactly flush then clear, after the store call, and nothing else changes |
| DataAccess.RemoveByIdNeverLoads | src/main/java/com/eidoscode/framework/persistence/dao/impl/DataAccessObjectImpl.java:234-262 | remove by key never finds the entity; a successful remove of a bean always starts with a find |
| DataAccess.SaveAllSchedule | src/main/java/com/eidoscode/framework/persistence/dao/impl/DataAccessObjectImpl.java:147-156 | over N non-null beans the trace is the reference schedule: each save in order with its flag off, a flush and clear after every batch-th one when flushing, floor(N/batch) of each; none without flushing; the collection given comes back |
| DataAccess.MergeAllSchedule | src/main/java/com/eidoscode/framework/persistence/dao/impl/DataAccessObjectImpl.java:195-204 | the same schedule and counts for bulk merge |
| DataAccess.RemoveAllByIdSchedule | src/main/java/com/eidoscode/framework/persistence/dao/impl/DataAccessObjectImpl.java:281-290 | the same schedule and counts for bulk remove by key, for any keys, null included |
| DataAccess.SaveAllStopsAtNull | src/main/java/com/eidoscode/framework/persistence/dao/impl/DataAccessObjectImpl.java:149-151 | a null bean at position j stops the bulk save there with a null-pointer error, after the beans before it were saved on schedule |
| DataAccess.AccessorHookFree | src/main/java/com/eidoscode/framework/persistence/dao/impl/DataAccessObjectImpl.java:145-292 | the accessor's bulk operations never invoke a façade hook, for any input |
| Batching.BatchLoop | src/main/java/com/eidoscode/framework/persistence/dao/impl/DataAccessObjectImpl.java:147-156 | the loop succeeds exactly when every element succeeds and no `% 0` is evaluated |
| Batching.BatchLoopFollowsSchedule | src/main/java/com/eidoscode/framework/persistence/dao/impl/DataAccessObjectImpl.java:147-156 | when every element succeeds, the Java loop's trace equals the independent position-based schedule |
| Batching.BatchLoopStopsAtFailure | src/main/java/com/eidoscode/framework/persistence/dao/impl/DataAccessObjectImpl.java:149-156 | the first failing element ends the loop with its error; the trace is the schedule of the elements before it plus that element's own events |
| Batching.ScheduledFlushCount | src/main/java/com/eidoscode/framework/persistence/dao/impl/DataAccessObjectImpl.java:152-155 | with flushing and a positive batch size, N elements that flush nothing themselves give exactly floor(N/batch) flushes and as many clears |
| Batching.ScheduledWithoutFlush | src/main/java/com/eidoscode/framework/persistence/dao/impl/DataAccessObjectImpl.java:153 | without flushing, the bulk trace is the element traces in order, with nothing added |
| Batching.ScheduledLast | src/main/java/com/eidoscode/framework/persistence/dao/impl/DataAccessObjectImpl.java:152-155 | the trace ends with the last element's events, followed by a flush only when N is a multiple of the batch size, so a partial final batch is never flushed |
| Batching.BulkSchedule | src/main/java/com/eidoscode/framework/persistence/dao/impl/DataAccessObjectImpl.java:147-156 | the whole batch-flush policy for a loop whose elements all succeed: the schedule, the flush and clear counts with flushing, and none without |
| Batching.BatchLoopHookFree | src/main/java/com/eidoscode/framework/persistence/dao/impl/DataAccessObjectImpl.java:301-306 | the loop adds only flush and clear, so hook-free elements give a hook-free trace |
| Batching.DivStep | src/main/java/com/eidoscode/framework/persistence/dao/impl/DataAccessObjectImpl.java:152-153 | the count of multiples of the batch size grows by one exactly when the counter reaches a multiple |
| Persistence.FlushTrace | src/main/java/com/eidoscode/framework/persistence/dao/impl/DataAccessObjectImpl.java:301-306 | `flushEntityManager(flush)` emits flush then clear when asked, and no event otherwise |
| Persistence.CountFlushTrace | src/main/java/com/eidoscode/framework/persistence/dao/impl/DataAccessObjectImpl.java:301-306 | `flushEntityManager(true)` emits one flush and one clear; `flushEntityManager(false)` emits nothing |
| Persistence.CountFlattenZero | src/main/java/com/eidoscode/framework/persistence/dao/impl/DataAccessObjectImpl.java:147-156 | concatenating traces that lack an event gives a trace that lacks it |
| Business.FindByKey | src/main/java/com/eidoscode/framework/persistence/bo/impl/BusinessObjectImpl.java:91-97 | a null key gives null with no call; a non-null key asks the accessor once and returns its answer; the result is a record exactly when the key is non-null and stored |
| Business.Save | src/main/java/com/eidoscode/framework/persistence/bo/impl/BusinessObjectImpl.java:173-181 | a null bean throws before any hook or call; otherwise the trace is `beforeSave(argument)`, the accessor's save, `afterSave(result)`, and the accessor's result comes back |
| Business.Merge | src/main/java/com/eidoscode/framework/persistence/bo/impl/BusinessObjectImpl.java:244-252 | the same guard and save hooks around the accessor's merge |
| Business.Remove | src/main/java/com/eidoscode/framework/persistence/bo/impl/BusinessObjectImpl.java:310-317 | a null bean throws before any hook; otherwise `beforeRemove(argument)`, the accessor's remove, and `afterRemove(argument)` only when that remove succeeded |
| Business.RemoveById | src/main/java/com/eidoscode/framework/persistence/bo/impl/BusinessObjectImpl.java:343-351 | answers false exactly when the key is null or not stored, and then the trace is only the find; true only for a stored key |
| Business.RemoveByIdOfStoredKey | src/main/java/com/eidoscode/framework/persistence/bo/impl/BusinessObjectImpl.java:343-351 | for a stored key the whole trace is find, `beforeRemove`, the accessor's re-find and remove, the flush pair when asked, `afterRemove`, and the answer is true |
| Business.RemoveByIdOfMissingKey | src/main/java/com/eidoscode/framework/persistence/bo/impl/BusinessObjectImpl.java:343-350 | a null or unknown key answers false with no hook and no remove: an empty trace for null, one find otherwise |
| Business.RemoveByIdLayersDiffer | src/main/java/com/eidoscode/framework/persistence/bo/impl/BusinessObjectImpl.java:343-351 | the accessor's remove by key is hook-free and load-free, while the façade's finds the key twice and runs each remove hook exactly once |
| Business.SaveHooksOnce | src/main/java/com/eidoscode/framework/persistence/bo/impl/BusinessObjectImpl.java:177-180 | a successful single save or merge starts with `beforeSave(argument)`, ends with `afterSave(result)` and runs no other hook in between |
| Business.BulkPathsHookFree | src/main/java/com/eidoscode/framework/persistence/bo/impl/BusinessObjectImpl.java:193-383 | the façade's bulk save, bulk merge and bulk remove by key, in both the one- and two-argument overloads, never run a hook |
| Business.SaveAll | src/main/java/com/eidoscode/framework/persistence/bo/impl/BusinessObjectImpl.java:214-216 | the two-argument bulk save is the accessor's, with no null check, and its trace holds no hook |
| Business.MergeAll | src/main/java/com/eidoscode/framework/persistence/bo/impl/BusinessObjectImpl.java:282-284 | the two-argument bulk merge is the accessor's, with no null check, and its trace holds no hook |
| Business.RemoveAllById | src/main/java/com/eidoscode/framework/persistence/bo/impl/BusinessObjectImpl.java:381-383 | bulk remove by key is the accessor's, and its trace holds no hook |
| Business.FindAll | src/main/java/com/eidoscode/framework/persistence/bo/impl/BusinessObjectImpl.java:67-69 | the full scan is the accessor's |
| Business.SaveDefault | src/main/java/com/eidoscode/framework/persistence/bo/impl/BusinessObjectImpl.java:154-156 | `save(bean)` is `save(bean, false)` and never flushes or clears |
| Business.MergeDefault | src/main/java/com/eidoscode/framework/persistence/bo/impl/BusinessObjectImpl.java:227-229 | `merge(bean)` is `merge(bean, false)` and never flushes or clears |
| Business.RemoveDefault | src/main/java/com/eidoscode/framework/persistence/bo/impl/BusinessObjectImpl.java:294-296 | `remove(bean)` is `remove(bean, false)` and never flushes or clears |
| Business.RemoveByIdDefault | src/main/java/com/eidoscode/framework/persistence/bo/impl/BusinessObjectImpl.java:327-329 | `removeById(key)` is `removeById(key, false)` and never flushes or clears |
| Business.SaveAllDefault | src/main/java/com/eidoscode/framework/persistence/bo/impl/BusinessObjectImpl.java:193-198 | `save(beans)` rejects a null collection with a null-pointer error and no call, where the two-argument form passes null through; otherwise it is the flag-off form |
| Business.MergeAllDefault | src/main/java/com/eidoscode/framework/persistence/bo/impl/BusinessObjectImpl.java:263-268 | `merge(beans)` rejects a null collection; otherwise it is the flag-off form |
| Business.RemoveAllByIdDefault | src/main/java/com/eidoscode/framework/persistence/bo/impl/BusinessObjectImpl.java:365-367 | `removeById(keys)` has no null check and is the flag-off form |
| CharsetMediaType.Trim | src/main/java/com/eidoscode/javax/ws/rs/core/CharsetMediaType.java:64 | the trimmed line is the input with a leading run and a trailing run of characters up to U+0020 removed, and it starts and ends with a character above U+0020; it is empty exactly when every character is at most U+0020 |
| CharsetMediaType.JavaSplit | src/main/java/com/eidoscode/javax/ws/rs/core/CharsetMediaType.java:65 | `split("\\=")`: a text without `=` comes back whole; a text with one gives no segment exactly when it is only separators; the first segment is the text before the first `=` |
| CharsetMediaType.IndexOf | src/main/java/com/eidoscode/javax/ws/rs/core/CharsetMediaType.java:65 | the position of the first separator, or the length when there is none |
| CharsetMediaType.DropTrailingEmpty | src/main/java/com/eidoscode/javax/ws/rs/core/CharsetMediaType.java:65 | `split` keeps a prefix of the segments that ends in a non-empty one, and only empty segments are dropped |
| CharsetMediaType.ParseLine | src/main/java/com/eidoscode/javax/ws/rs/core/CharsetMediaType.java:64-71 | a null line, or one that trims to nothing, adds no entry; an entry is only added for a non-blank line |
| CharsetMediaType.SegmentsAllEmpty | src/main/java/com/eidoscode/javax/ws/rs/core/CharsetMediaType.java:65-66 | every `=`-segment of a text is empty exactly when the text is only separators |
| CharsetMediaType.KeptSegments | src/main/java/com/eidoscode/javax/ws/rs/core/CharsetMediaType.java:65-69 | `split` keeps nothing exactly when every segment is empty, keeps at least two segments exactly when a non-empty one follows the first, and keeps the first two unchanged |
| CharsetMediaType.ParseLineMatchesSpec | src/main/java/com/eidoscode/javax/ws/rs/core/CharsetMediaType.java:64-70 | for a non-blank line the parse agrees with the text-level reading: the key is the text before the first `=`; the value is null when no `=` follows or only separators follow it, otherwise the text up to the next `=`; a line of separators only throws `ArrayIndexOutOfBoundsException` |
| CharsetMediaType.PutAll | src/main/java/com/eidoscode/javax/ws/rs/core/CharsetMediaType.java:63-73 | building the map fails exactly when some line fails to parse |
| CharsetMediaType.GenerateMap | src/main/java/com/eidoscode/javax/ws/rs/core/CharsetMediaType.java:60-76 | a null or empty argument list gives an empty map; otherwise the call fails exactly when some line fails |
| CharsetMediaType.PutAllIsPutEntries | src/main/java/com/eidoscode/javax/ws/rs/core/CharsetMediaType.java:63-73 | over lines that all parse, putting line by line equals putting their parsed entries in order |
| CharsetMediaType.PutEntriesKeepsOthers | src/main/java/com/eidoscode/javax/ws/rs/core/CharsetMediaType.java:71 | entries for other keys leave a key's presence and value as they were |
| CharsetMediaType.PutEntriesLastWins | src/main/java/com/eidoscode/javax/ws/rs/core/CharsetMediaType.java:71 | the last entry carrying a key decides its value |
| CharsetMediaType.GenerateMapEntries | src/main/java/com/eidoscode/javax/ws/rs/core/CharsetMediaType.java:60-76 | for lines that all parse, the map holds exactly the keys some line carries, each with the value of the last line carrying it |
| CharsetMediaType.SingleLineParse | src/main/java/com/eidoscode/javax/ws/rs/core/CharsetMediaType.java:64-70 | a line `key=value` with no blank at either end and no further separator parses to that key and value |
| CharsetMediaType.SingleLineMap | src/main/java/com/eidoscode/javax/ws/rs/core/CharsetMediaType.java:60-76 | such a line alone generates exactly the one-entry map key to value |
| CharsetMediaType.ApplicationJsonTypeUtf8 | src/main/java/com/eidoscode/javax/ws/rs/core/CharsetMediaType.java:33-34 | the UTF-8 constant is application/json with exactly the parameter charset=UTF-8 |
| CharsetMediaType.ApplicationJsonTypeIso88591 | src/main/java/com/eidoscode/javax/ws/rs/core/CharsetMediaType.java:48-49 | the ISO constant is application/json with exactly the parameter charset=ISO-8859-1 |
| AuditListeners.FillCreationDate | src/main/java/com/eidoscode/framework/persistence/model/listener/CreationDateListener.java:31-36 | an entity without a key gets the creation date `now`; one with a key is left entirely unchanged; the key and the modification date never change |
| AuditListeners.FillModifiedDate | src/main/java/com/eidoscode/framework/persistence/model/listener/ModifiedDateListener.java:31-34 | the modification date becomes `now` whether or not the key is set; the key and the creation date never change |
| AuditListeners.AuditCallbacks | src/main/java/com/eidoscode/framework/persistence/model/impl/AuditedModelImpl.java:31 | both listeners in their registered order, each with its own clock reading: the key is kept, the modification date is the second reading, and the creation date is the first reading for a new entity and kept for a stored one |
| AuditListeners.FillCreationDateIdempotent | src/main/java/com/eidoscode/framework/persistence/model/listener/CreationDateListener.java:31-36 | running the creation listener twice with the same `now` equals running it once |
| AuditListeners.FillModifiedDateIdempotent | src/main/java/com/eidoscode/framework/persistence/model/listener/ModifiedDateListener.java:31-34 | running the modification listener twice with the same `now` equals running it once |
| AuditListeners.ListenersCommute | src/main/java/com/eidoscode/framework/persistence/model/impl/AuditedModelImpl.java:31 | the two listeners touch different fields, so their registration order does not matter, whatever clock readings they take |
| AuditListeners.NewEntityDatesOrdered | src/main/java/com/eidoscode/framework/persistence/model/listener/CreationDateListener.java:33-34 | with a clock that does not run backwards, a new entity ends with a creation date no later than its modification date; a stored entity without a creation date keeps none |

## Left out

- `findAllPaginate`, `countAll`, the criteria builders and the two query-filter hooks: they build and run JPA Criteria queries, which belong to a library outside this model.
- The JPA `EntityManager` itself. Its calls are trace events. `merge` answers with an opaque function of its argument. `find` reads a key-to-entity map that stays fixed during one call. `getResultList` is an opaque function of the query text.
- What the persistence context does to the store and to the argument: key generation on persist, rows deleted or updated, and the listener callbacks it runs on the persisted object. The audit listeners are modelled separately, as pure functions of the entity and the clock.
- The clock: each listener's `new Date()` is a parameter. `AuditListeners.AuditCallbacks` takes two independent readings, one per listener. Only the ordering lemma `AuditListeners.NewEntityDatesOrdered` assumes the second reading is no earlier than the first; a wall clock set back between the two reads breaks that assumption.
- Reflection through `GenericsUtils` and the annotation scan: the entity class's simple name and its optional `@Entity` name are parameters of `DataAccess.NewDao`. The key and entity classes themselves are not modelled.
- Transactions, the log4j loggers, `MinimalDataAccessObjectImpl` and `QueryUtils`: they are plumbing with no effect on the modelled results or calls.
- The hooks' bodies: they are empty by default and meant to be overridden, so they appear only as events.
- Batching.BatchLoop: the Java loop counter is a 32-bit `int`. Here it is unbounded, so a collection of more than 2^31 - 1 elements, where the counter would wrap, is not modelled.
- Key type and dates: keys are integers and dates are milliseconds, where the source accepts any serializable key and uses `java.util.Date`.
- Collections are sequences in iteration order. Concurrent modification of a collection during a bulk call is not modelled.
- Business.FindAll: stated as equal to the accessor's full scan, which is all the source does.
- DataAccess.RemoveById, DataAccess.SaveAll, DataAccess.MergeAll, DataAccess.RemoveAllById, DataAccess.Save, DataAccess.Merge: every store call (persist, merge, executeUpdate, flush, clear) always succeeds in this model. The exceptions the persistence context can raise, such as an optimistic-lock failure in `merge` or a failing flush, are not modelled. Only the null-argument rejections and the `% 0` are errors.
- DataAccess.SaveAll, DataAccess.SaveAllSchedule: `persist` assigns the argument its key in the source. The model does not change the argument. So a new bean that appears twice in one bulk save shows two persists here, where the source persists it once and then merges it.
