/**
  The two entity listeners an audited entity registers, run by the
  persistence context before a persist or an update. The wall clock the
  source reads is the parameter `now`.
 */
module AuditListeners {
  import opened Wrappers
  import opened Persistence

  /**
    CreationDateListener.fillInformation: stamps the creation date on an
    entity that has no key yet and leaves a stored entity alone.
   */
  function FillCreationDate(e: Entity, now: Date): (r: Entity)
    ensures r.id == e.id && r.modifiedOn == e.modifiedOn
    ensures IsNew(e) ==> r.createdOn == Some(now)
    ensures !IsNew(e) ==> r == e
  {
    if e.id.None? then e.(createdOn := Some(now)) else e
  }

  /**
    ModifiedDateListener.fillInformation: stamps the modification date,
    whether or not the entity has a key.
   */
  function FillModifiedDate(e: Entity, now: Date): (r: Entity)
    ensures r.modifiedOn == Some(now)
    ensures r.id == e.id && r.createdOn == e.createdOn
  {
    e.(modifiedOn := Some(now))
  }

  /**
    The callbacks of an audited entity, in the order AuditedModelImpl
    registers them: creation date, then modification date. Each listener
    reads the wall clock itself, so each gets its own reading, in either
    order.
   */
  function AuditCallbacks(e: Entity, created: Date, modified: Date): (r: Entity)
    ensures r.id == e.id && r.modifiedOn == Some(modified)
    ensures IsNew(e) ==> r.createdOn == Some(created)
    ensures !IsNew(e) ==> r.createdOn == e.createdOn
  {
    FillModifiedDate(FillCreationDate(e, created), modified)
  }

  /** Running the creation listener twice at the same instant changes nothing more. */
  lemma FillCreationDateIdempotent(e: Entity, now: Date)
    ensures FillCreationDate(FillCreationDate(e, now), now) == FillCreationDate(e, now)
  {
  }

  /** Running the modification listener twice at the same instant changes nothing more. */
  lemma FillModifiedDateIdempotent(e: Entity, now: Date)
    ensures FillModifiedDate(FillModifiedDate(e, now), now) == FillModifiedDate(e, now)
  {
  }

  /** The two listeners touch different fields, so their order does not matter. */
  lemma ListenersCommute(e: Entity, created: Date, modified: Date)
    ensures FillModifiedDate(FillCreationDate(e, created), modified)
         == FillCreationDate(FillModifiedDate(e, modified), created)
  {
  }

  /**
    A new audited entity leaves the callbacks created no later than it was
    modified; a stored one keeps its creation date, even a missing one.
   */
  lemma NewEntityDatesOrdered(e: Entity, created: Date, modified: Date)
    requires created <= modified
    ensures IsNew(e) ==> AuditCallbacks(e, created, modified).createdOn.value
                         <= AuditCallbacks(e, created, modified).modifiedOn.value
    ensures !IsNew(e) && e.createdOn.None? ==> AuditCallbacks(e, created, modified).createdOn.None?
  {
  }
}
