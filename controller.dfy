/**
 * The controller object: its bounded work queue, the configured
 * autoscaler name, and the environment it reads (the lister's cache and
 * the Kafka document a GET returns). Each method is proved to have the
 * effect the corresponding function of Machine gives.
 */
module HpaController {
  import opened Wrappers
  import opened Keys
  import opened Reconciliation
  import M = Machine

  class Controller {
    /** The configured autoscaler name; None when the variable is unset. */
    const hpaName: Option<string>
    var queue: seq<string>
    var hpaCache: map<string, Hpa>
    var target: Option<Doc>
    var running: bool

    /** The queue never holds more than its capacity. */
    ghost predicate Valid()
      reads this
    {
      |queue| <= M.Capacity
    }

    /** The controller's state as a value. */
    function Snapshot(): M.State
      reads this
    {
      M.State(queue, hpaCache, target, running)
    }

    /** A controller with an empty work queue over the given cache and cluster. */
    constructor (hpaName: Option<string>, hpaCache: map<string, Hpa>, target: Option<Doc>)
      ensures Valid() && this.hpaName == hpaName
      ensures Snapshot() == M.State([], hpaCache, target, true)
    {
      this.hpaName := hpaName;
      this.queue := [];
      this.hpaCache := hpaCache;
      this.target := target;
      this.running := true;
    }

    /** The add handler registered in create. */
    method OnAdd(hpa: M.HpaMeta) returns (outcome: M.EnqueueOutcome)
      requires Valid()
      modifies this
      ensures Valid()
      ensures (Snapshot(), outcome) == M.Enqueue(old(Snapshot()), hpaName, hpa)
    {
      outcome := EnqueueHpa(hpa);
    }

    /** The update handler registered in create: only the new object counts. */
    method OnUpdate(oldHpa: M.HpaMeta, newHpa: M.HpaMeta) returns (outcome: M.EnqueueOutcome)
      requires Valid()
      modifies this
      ensures Valid()
      ensures (Snapshot(), outcome) == M.Enqueue(old(Snapshot()), hpaName, newHpa)
    {
      outcome := EnqueueHpa(newHpa);
    }

    /** The delete handler registered in create does nothing. */
    method OnDelete(hpa: M.HpaMeta, finalStateUnknown: bool)
      ensures Snapshot() == old(Snapshot())
    {
    }

    /** enqueueHpa: add the object's key to the queue when its name part is the configured name. */
    method EnqueueHpa(hpa: M.HpaMeta) returns (outcome: M.EnqueueOutcome)
      requires Valid()
      modifies this
      ensures Valid()
      ensures (Snapshot(), outcome) == M.Enqueue(old(Snapshot()), hpaName, hpa)
    {
      var key := MetaNamespaceKey(hpa.namespace, hpa.name);
      var segment := SecondSegment(key);
      if segment.None? {
        return M.NoSecondSegment;
      }
      if Some(segment.value) != hpaName {
        return M.NameMismatch;
      }
      if |queue| >= M.Capacity {
        return M.QueueFull;
      }
      queue := queue + [key];
      outcome := M.Enqueued(key);
    }

    /** One iteration of the inner loop of run. */
    method Step(editAccepted: bool) returns (outcome: M.StepOutcome)
      requires Valid()
      modifies this
      ensures Valid()
      ensures (Snapshot(), outcome) == M.Step(old(Snapshot()), editAccepted)
    {
      if !running {
        return M.NotRunning;
      }
      if queue == [] {
        return M.QueueEmpty;
      }
      var key := queue[0];
      queue := queue[1..];
      if !WellFormed(key) {
        return M.DroppedMalformed(key);
      }
      var name := SecondSegment(key);
      if name.None? {
        running := false;
        return M.IndexOutOfBounds(key);
      }
      if name.value !in hpaCache {
        running := false;
        return M.HpaMissing(name.value);
      }
      var result := Reconcile(hpaCache[name.value], editAccepted);
      outcome := M.Reconciled(name.value, result);
    }

    /** reconcile: compare the three counts and call the update when they are not all equal. */
    method Reconcile(hpa: Hpa, editAccepted: bool) returns (result: ReconcileOutcome)
      modifies this
      ensures queue == old(queue) && hpaCache == old(hpaCache)
      ensures (result, target) == Reconciliation.Reconcile(hpa, old(target), editAccepted)
      ensures running == (old(running) && !result.TargetMissing?)
    {
      if target.None? {
        running := false;
        return TargetMissing;
      }
      var kafkaReplicas := target.value.kafkaReplicas;
      if !NeedsUpdate(hpa.currentReplicas, hpa.desiredReplicas, kafkaReplicas) {
        return NoChange;
      }
      var written := UpdateKafkaWithRightReplicas(hpa.desiredReplicas, editAccepted);
      result := if written then Edited(hpa.desiredReplicas) else EditFailed;
    }

    /** updateKafkaWithRightReplicas: re-fetch the document and write it back with the desired count. */
    method UpdateKafkaWithRightReplicas(desired: int, editAccepted: bool) returns (written: bool)
      modifies this`target
      ensures written == (old(target).Some? && editAccepted)
      ensures target == if written then Update(old(target), desired, editAccepted) else old(target)
    {
      var refetched := target;
      if refetched.Some? && editAccepted {
        target := Some(refetched.value.(kafkaReplicas := desired));
        written := true;
      } else {
        written := false;
      }
    }

    /** The inner loop of run: step while run has not returned and the queue is not empty. */
    method Drain(editAccepted: bool)
      requires Valid()
      modifies this
      ensures Valid()
      ensures Snapshot() == M.Drain(old(Snapshot()), editAccepted)
    {
      while running && queue != []
        invariant Valid()
        invariant M.Drain(Snapshot(), editAccepted) == M.Drain(old(Snapshot()), editAccepted)
        decreases |queue|
      {
        var _ := Step(editAccepted);
      }
    }
  }
}
