/**
 * The reconcile decision and the patch rule: compare the autoscaler's
 * current and desired replica counts with the Kafka resource's
 * `spec.kafka.replicas`, and when they differ write the desired count into
 * the re-fetched document, leaving every other field as it was.
 */
module Reconciliation {
  import opened Wrappers

  /** The status of the HorizontalPodAutoscaler as the cache holds it. */
  datatype Hpa = Hpa(desiredReplicas: int, currentReplicas: int)

  /**
   * The Kafka custom resource's document: the replica field at
   * `spec.kafka.replicas`, and every other field, by path, as it is serialised.
   */
  datatype Doc = Doc(kafkaReplicas: int, otherFields: map<string, string>)

  /** What one call of reconcile did. */
  datatype ReconcileOutcome =
    | TargetMissing             // the first GET gave null: reading its "spec" field throws NullPointerException
    | NoChange                  // all three counts agree: nothing is written
    | Edited(replicas: int)     // the document was written back with this replica count
    | EditFailed                // the re-fetch gave null, or the client threw and the error was logged

  /** Reconcile does nothing only when current, desired and Kafka replica counts are all equal. */
  predicate NeedsUpdate(current: int, desired: int, kafka: int)
    ensures kafka != desired ==> NeedsUpdate(current, desired, kafka)
    ensures current != desired ==> NeedsUpdate(current, desired, kafka)
    ensures !NeedsUpdate(current, desired, kafka) ==> current == kafka
  {
    !(current == desired && desired == kafka)
  }

  /**
   * updateKafkaWithRightReplicas: the document it writes back, or None when
   * it writes nothing (the re-fetch gave null, or the edit call threw).
   */
  function Update(refetched: Option<Doc>, desired: int, editAccepted: bool): (written: Option<Doc>)
    ensures written.Some? <==> refetched.Some? && editAccepted
    ensures written.Some? ==> written.value.kafkaReplicas == desired
    ensures written.Some? ==> written.value.otherFields == refetched.value.otherFields
  {
    match refetched
    case None => None
    case Some(doc) => if editAccepted then Some(doc.(kafkaReplicas := desired)) else None
  }

  /**
   * reconcile, given the autoscaler status and the document both GETs
   * return: the outcome and the document the cluster holds afterwards.
   */
  function Reconcile(hpa: Hpa, target: Option<Doc>, editAccepted: bool): (r: (ReconcileOutcome, Option<Doc>))
    ensures r.0.TargetMissing? <==> target.None?
    ensures target.Some? ==>
      (r.0 == NoChange <==> !NeedsUpdate(hpa.currentReplicas, hpa.desiredReplicas, target.value.kafkaReplicas))
    ensures r.0.Edited? <==>
      target.Some? && NeedsUpdate(hpa.currentReplicas, hpa.desiredReplicas, target.value.kafkaReplicas) && editAccepted
    ensures r.0.Edited? ==> r.0.replicas == hpa.desiredReplicas
    ensures r.1 == if r.0.Edited? then Update(target, hpa.desiredReplicas, true) else target
  {
    match target
    case None => (TargetMissing, target)
    case Some(doc) =>
      if !NeedsUpdate(hpa.currentReplicas, hpa.desiredReplicas, doc.kafkaReplicas) then (NoChange, target)
      else
        var written := Update(target, hpa.desiredReplicas, editAccepted);
        if written.Some? then (Edited(hpa.desiredReplicas), written) else (EditFailed, target)
  }

  /** Applying the patch a second time with the same count writes the same document again. */
  lemma UpdateIdempotent(doc: Doc, desired: int)
    ensures Update(Update(Some(doc), desired, true), desired, true) == Update(Some(doc), desired, true)
  {
  }

  /**
   * Idempotence: once an edit has written the desired count and the
   * autoscaler has reached it (current == desired), reconciling again with
   * the same state issues no edit.
   */
  lemma ReconcileIdempotent(hpa: Hpa, target: Option<Doc>, editAccepted: bool, again: bool)
    requires hpa.currentReplicas == hpa.desiredReplicas
    requires Reconcile(hpa, target, editAccepted).0.Edited?
    ensures Reconcile(hpa, Reconcile(hpa, target, editAccepted).1, again)
         == (NoChange, Reconcile(hpa, target, editAccepted).1)
  {
  }

  /**
   * Convergence of the document: whatever the current count, reconciling a
   * document that already holds the desired count leaves the document as it is
   * (an edit may still be issued, writing the same value back).
   */
  lemma ReconcileDocumentFixedPoint(hpa: Hpa, doc: Doc, editAccepted: bool)
    requires doc.kafkaReplicas == hpa.desiredReplicas
    ensures Reconcile(hpa, Some(doc), editAccepted).1 == Some(doc)
  {
  }
}
