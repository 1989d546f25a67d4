/**
 * The controller as a state machine over values: the bounded work queue,
 * the namespace-scoped autoscaler cache, the Kafka document the cluster
 * holds, and whether `run` is still looping. The class in HpaController
 * is proved to follow these functions; the lemmas here state what the
 * controller promises about them.
 */
module Machine {
  import opened Wrappers
  import opened Keys
  import opened Reconciliation

  /** The capacity of the ArrayBlockingQueue that holds the work items. */
  const Capacity: nat := 1024

  datatype State = State(
    queue: seq<string>,           // pending keys, front first
    hpaCache: map<string, Hpa>,   // the lister's view, by autoscaler name
    target: Option<Doc>,          // what a GET of the Kafka resource returns
    running: bool)                // false once `run` has returned or thrown

  /** The identity of an autoscaler carried by an informer event. */
  datatype HpaMeta = HpaMeta(namespace: string, name: string)

  datatype EnqueueOutcome =
    | Enqueued(key: string)
    | NameMismatch        // the name part is not the configured autoscaler name
    | NoSecondSegment     // split("/")[1] throws: nothing after the slash
    | QueueFull           // add on a full queue throws IllegalStateException

  datatype StepOutcome =
    | NotRunning                       // run has returned: nothing is taken
    | QueueEmpty                       // nothing to take
    | DroppedMalformed(key: string)    // empty or slash-less key: dropped, the loop goes on
    | IndexOutOfBounds(key: string)    // split("/")[1] throws out of run
    | HpaMissing(name: string)         // the lister has no such autoscaler: run returns
    | Reconciled(name: string, result: ReconcileOutcome)

  /** The queue bound of the ArrayBlockingQueue. */
  predicate Bounded(s: State)
  {
    |s.queue| <= Capacity
  }

  /** enqueueHpa: push the object's key when its name part is the configured autoscaler name. */
  function Enqueue(s: State, hpaName: Option<string>, hpa: HpaMeta): (r: (State, EnqueueOutcome))
    ensures r.0 == s.(queue := r.0.queue)
    ensures r.1.Enqueued? <==> r.0.queue != s.queue
    ensures r.1.Enqueued? ==> r.1.key == MetaNamespaceKey(hpa.namespace, hpa.name)
    ensures r.1.Enqueued? ==> r.0.queue == s.queue + [r.1.key]
    ensures r.1.Enqueued? ==> SecondSegment(r.1.key) == hpaName
    ensures Bounded(s) ==> Bounded(r.0)
  {
    var key := MetaNamespaceKey(hpa.namespace, hpa.name);
    match SecondSegment(key)
    case None => (s, NoSecondSegment)
    case Some(segment) =>
      if Some(segment) != hpaName then (s, NameMismatch)
      else if |s.queue| >= Capacity then (s, QueueFull)
      else (s.(queue := s.queue + [key]), Enqueued(key))
  }

  /** One iteration of the inner loop of run: take the front key and process it. */
  function Step(s: State, editAccepted: bool): (r: (State, StepOutcome))
    ensures r.0.hpaCache == s.hpaCache
    ensures s.running && s.queue != [] ==> r.0.queue == s.queue[1..]
    ensures !(s.running && s.queue != []) ==> r.0 == s
    ensures r.0.running ==> s.running
    ensures r.0.target != s.target ==> r.1.Reconciled? && r.1.result.Edited?
  {
    if !s.running then (s, NotRunning)
    else if s.queue == [] then (s, QueueEmpty)
    else
      var key := s.queue[0];
      var rest := s.(queue := s.queue[1..]);
      if !WellFormed(key) then (rest, DroppedMalformed(key))
      else
        match SecondSegment(key)
        case None => (rest.(running := false), IndexOutOfBounds(key))
        case Some(name) =>
          if name !in s.hpaCache then (rest.(running := false), HpaMissing(name))
          else
            var (result, doc) := Reconcile(s.hpaCache[name], s.target, editAccepted);
            (rest.(target := doc, running := !result.TargetMissing?), Reconciled(name, result))
  }

  /** The inner loop of run: step until the queue is empty or run has returned. */
  function Drain(s: State, editAccepted: bool): (r: State)
    ensures !r.running || r.queue == []
    ensures r.running ==> s.running
    ensures r.hpaCache == s.hpaCache
    ensures |r.queue| <= |s.queue|
    decreases |s.queue|
  {
    if !s.running || s.queue == [] then s
    else Drain(Step(s, editAccepted).0, editAccepted)
  }

  /** What can happen to the controller: an informer callback, or one step of the consumer. */
  datatype Event =
    | Added(hpa: HpaMeta)
    | Updated(oldHpa: HpaMeta, newHpa: HpaMeta)
    | Deleted(hpa: HpaMeta, finalStateUnknown: bool)
    | Consumed(editAccepted: bool)

  /** The handlers registered in create, and the consumer's step. */
  function Apply(s: State, hpaName: Option<string>, e: Event): (r: State)
    ensures r.hpaCache == s.hpaCache && (r.running ==> s.running)
    ensures e.Deleted? ==> r == s
    ensures !e.Consumed? ==> r.target == s.target && r.running == s.running
    ensures Bounded(s) ==> Bounded(r)
  {
    match e
    case Added(hpa) => Enqueue(s, hpaName, hpa).0
    case Updated(_, hpa) => Enqueue(s, hpaName, hpa).0
    case Deleted(_, _) => s
    case Consumed(ok) => Step(s, ok).0
  }

  /** The controller after a sequence of events, the first one first. */
  function Run(s: State, hpaName: Option<string>, events: seq<Event>): (r: State)
    ensures r.hpaCache == s.hpaCache
    ensures r.running ==> s.running
    ensures (forall k :: 0 <= k < |events| ==> !events[k].Consumed?) ==> r.target == s.target
    decreases |events|
  {
    if events == [] then s else Run(Apply(s, hpaName, events[0]), hpaName, events[1..])
  }

  /**
   * The filter is exact: the key "<ns>/<name>" is appended to the back of the
   * queue exactly when the name equals the configured autoscaler name (and
   * is not empty, where split throws) and the queue has room; otherwise
   * nothing changes.
   */
  lemma EnqueueAppendsIff(s: State, hpaName: Option<string>, hpa: HpaMeta)
    requires '/' !in hpa.namespace && '/' !in hpa.name
    ensures Enqueue(s, hpaName, hpa).0
         == if hpa.name != "" && hpaName == Some(hpa.name) && |s.queue| < Capacity
            then s.(queue := s.queue + [MetaNamespaceKey(hpa.namespace, hpa.name)])
            else s
  {
    KeySecondSegment(hpa.namespace, hpa.name);
  }

  /** An event for another autoscaler name never produces a work item, for add and update alike. */
  lemma OtherNameIgnored(s: State, hpaName: Option<string>, e: Event)
    requires e.Added? || e.Updated?
    requires var h := if e.Added? then e.hpa else e.newHpa;
      '/' !in h.namespace && '/' !in h.name && hpaName != Some(h.name)
    ensures Apply(s, hpaName, e) == s
  {
    var h := if e.Added? then e.hpa else e.newHpa;
    EnqueueAppendsIff(s, hpaName, h);
  }

  /** Every sequence of events keeps the queue within its capacity. */
  lemma {:induction false} RunBounded(s: State, hpaName: Option<string>, events: seq<Event>)
    requires Bounded(s)
    ensures Bounded(Run(s, hpaName, events))
    decreases |events|
  {
    if events != [] {
      var s' := Apply(s, hpaName, events[0]);
      assert Bounded(s');
      RunBounded(s', hpaName, events[1..]);
    }
  }

  /** An event whose autoscaler name is not the configured one, or a delete. */
  predicate Irrelevant(hpaName: Option<string>, e: Event)
  {
    match e
    case Added(h) => '/' !in h.namespace && '/' !in h.name && hpaName != Some(h.name)
    case Updated(_, h) => '/' !in h.namespace && '/' !in h.name && hpaName != Some(h.name)
    case Deleted(_, _) => true
    case Consumed(_) => true
  }

  /**
   * Starting from an empty queue, events that are all deletes, steps or for
   * other autoscalers never produce work: the queue stays empty and the
   * Kafka document and the loop are left as they were.
   */
  lemma {:induction false} IrrelevantEventsDoNothing(s: State, hpaName: Option<string>, events: seq<Event>)
    requires s.queue == []
    requires forall k :: 0 <= k < |events| ==> Irrelevant(hpaName, events[k])
    ensures Run(s, hpaName, events) == s
    decreases |events|
  {
    if events != [] {
      var e := events[0];
      assert Irrelevant(hpaName, e);
      if e.Added? || e.Updated? {
        OtherNameIgnored(s, hpaName, e);
      }
      assert Apply(s, hpaName, e) == s;
      assert forall k :: 0 <= k < |events[1..]| ==> events[1..][k] == events[k + 1];
      IrrelevantEventsDoNothing(s, hpaName, events[1..]);
    }
  }

  /** A delete event leaves the whole controller unchanged. */
  lemma DeleteIgnored(s: State, hpaName: Option<string>, hpa: HpaMeta, finalStateUnknown: bool)
    ensures Apply(s, hpaName, Deleted(hpa, finalStateUnknown)) == s
  {
  }

  /**
   * An empty or slash-less key is taken off the front and dropped; the cache
   * is not consulted, the document is not touched and the loop goes on.
   */
  lemma MalformedKeyDropped(s: State, editAccepted: bool)
    requires s.running && s.queue != [] && !WellFormed(s.queue[0])
    ensures Step(s, editAccepted) == (s.(queue := s.queue[1..]), DroppedMalformed(s.queue[0]))
  {
  }

  /**
   * A well-formed key is looked up by the text between its first and second
   * slash; when nothing but slashes follows the first slash, split throws and
   * run ends; when the autoscaler is not in the cache, run returns. In both
   * cases the document is not touched.
   */
  lemma LookupBySecondSegment(s: State, editAccepted: bool)
    requires s.running && s.queue != [] && WellFormed(s.queue[0])
    ensures var key := s.queue[0];
      var r := Step(s, editAccepted);
      if forall j :: FirstSlash(key) < j < |key| ==> key[j] == '/' then
        r == (s.(queue := s.queue[1..], running := false), IndexOutOfBounds(key))
      else
        var name := UpToSlash(AfterFirstSlash(key));
        if name !in s.hpaCache then
          r == (s.(queue := s.queue[1..], running := false), HpaMissing(name))
        else
          r.1.Reconciled? && r.1.name == name
  {
    SecondSegmentSpec(s.queue[0]);
  }

  /**
   * For a key the event filter built, the lookup uses exactly the autoscaler's
   * name, and an autoscaler missing from the cache stops run without touching
   * the document.
   */
  lemma LookupOfFilteredKey(s: State, editAccepted: bool, namespace: string, name: string)
    requires '/' !in namespace && '/' !in name && name != ""
    requires s.running && s.queue != [] && s.queue[0] == MetaNamespaceKey(namespace, name)
    ensures name !in s.hpaCache ==>
      Step(s, editAccepted) == (s.(queue := s.queue[1..], running := false), HpaMissing(name))
    ensures name in s.hpaCache ==>
      Step(s, editAccepted).1.Reconciled? && Step(s, editAccepted).1.name == name
  {
    KeySecondSegment(namespace, name);
  }

  /**
   * Once the key names a cached autoscaler and the document exists,
   * no edit is issued exactly when current, desired and Kafka counts are
   * all equal; otherwise the update is called with the desired count, and
   * a successful edit changes the replica field only.
   */
  lemma StepReconcileIff(s: State, editAccepted: bool, name: string)
    requires s.running && s.queue != [] && WellFormed(s.queue[0])
    requires SecondSegment(s.queue[0]) == Some(name) && name in s.hpaCache && s.target.Some?
    ensures var hpa := s.hpaCache[name];
      var doc := s.target.value;
      var r := Step(s, editAccepted);
      && r.0.running
      && (r.1 == Reconciled(name, NoChange)
          <==> hpa.currentReplicas == hpa.desiredReplicas && hpa.desiredReplicas == doc.kafkaReplicas)
      && (r.1 != Reconciled(name, NoChange) ==>
            r.0.target == if editAccepted then Some(doc.(kafkaReplicas := hpa.desiredReplicas)) else s.target)
  {
  }

  /** A missing Kafka document makes reconcile throw out of run, leaving the document absent. */
  lemma StepTargetMissing(s: State, editAccepted: bool, name: string)
    requires s.running && s.queue != [] && WellFormed(s.queue[0])
    requires SecondSegment(s.queue[0]) == Some(name) && name in s.hpaCache && s.target.None?
    ensures Step(s, editAccepted) == (s.(queue := s.queue[1..], running := false), Reconciled(name, TargetMissing))
  {
  }

  /**
   * Idempotence of the loop: a key whose step edited the document, for an
   * autoscaler with current == desired, is a no-op when it is taken again
   * with the same cache and document.
   */
  lemma StepIdempotent(s: State, editAccepted: bool, again: bool)
    requires s.running && |s.queue| >= 2 && s.queue[1] == s.queue[0]
    requires Step(s, editAccepted).1.Reconciled? && Step(s, editAccepted).1.result.Edited?
    requires var h := s.hpaCache[Step(s, editAccepted).1.name]; h.currentReplicas == h.desiredReplicas
    ensures var s' := Step(s, editAccepted).0;
      Step(s', again) == (s'.(queue := s'.queue[1..]), Reconciled(Step(s, editAccepted).1.name, NoChange))
  {
    var r := Step(s, editAccepted);
    var s' := r.0;
    assert s'.queue[0] == s.queue[0];
    ReconcileIdempotent(s.hpaCache[r.1.name], s.target, editAccepted, again);
  }

  /**
   * Convergence of the loop: draining a queue holding only copies of one
   * key for a cached autoscaler leaves the loop running, the queue empty and
   * the document holding the desired count with every other field unchanged.
   */
  lemma {:induction false} DrainConverges(s: State, key: string, name: string)
    requires s.running && s.queue != [] && forall k :: 0 <= k < |s.queue| ==> s.queue[k] == key
    requires WellFormed(key) && SecondSegment(key) == Some(name) && name in s.hpaCache
    requires s.target.Some?
    ensures var r := Drain(s, true);
      r.running && r.queue == [] && r.hpaCache == s.hpaCache
      && r.target == Some(s.target.value.(kafkaReplicas := s.hpaCache[name].desiredReplicas))
    decreases |s.queue|
  {
    var s' := Step(s, true).0;
    var d := s.hpaCache[name].desiredReplicas;
    assert s'.target.Some? && s'.target.value == s.target.value.(kafkaReplicas := d);
    if s'.queue != [] {
      assert forall k :: 0 <= k < |s'.queue| ==> s'.queue[k] == s.queue[k + 1];
      DrainConverges(s', key, name);
      assert s'.target.value.(kafkaReplicas := d) == s'.target.value;
    }
  }

  /**
   * Scenario: an autoscaler with desired 5 and current 3, a document with 3
   * replicas, the autoscaler's key queued twice. The first step writes 5.
   * Because current still differs from desired, the second step edits again;
   * it writes the same document, so the document stays at 5.
   */
  lemma ScenarioScaleUp(namespace: string, name: string, rest: map<string, string>)
    requires '/' !in namespace && '/' !in name && name != ""
    ensures var key := MetaNamespaceKey(namespace, name);
      var s := State([key, key], map[name := Hpa(5, 3)], Some(Doc(3, rest)), true);
      var r1 := Step(s, true);
      var r2 := Step(r1.0, true);
      && r1.1 == Reconciled(name, Edited(5))
      && r1.0.target == Some(Doc(5, rest))
      && r2.1 == Reconciled(name, Edited(5))
      && r2.0.target == Some(Doc(5, rest))
      && r2.0.queue == [] && r2.0.running
  {
    var key := MetaNamespaceKey(namespace, name);
    KeySecondSegment(namespace, name);
    var cache := map[name := Hpa(5, 3)];
    var s := State([key, key], cache, Some(Doc(3, rest)), true);
    var s1 := State([key], cache, Some(Doc(5, rest)), true);
    StepReconcileIff(s, true, name);
    assert Step(s, true) == (s1, Reconciled(name, Edited(5)));
    StepReconcileIff(s1, true, name);
  }

  /** Scenario: desired, current and Kafka counts all 4: no edit. */
  lemma ScenarioConverged(namespace: string, name: string, rest: map<string, string>)
    requires '/' !in namespace && '/' !in name && name != ""
    ensures var s := State([MetaNamespaceKey(namespace, name)], map[name := Hpa(4, 4)], Some(Doc(4, rest)), true);
      Step(s, true) == (s.(queue := []), Reconciled(name, NoChange))
  {
    KeySecondSegment(namespace, name);
    var s := State([MetaNamespaceKey(namespace, name)], map[name := Hpa(4, 4)], Some(Doc(4, rest)), true);
    StepReconcileIff(s, true, name);
  }

  /** Scenario: an update event for ns/other-hpa while kafka-hpa is configured: no work item. */
  lemma ScenarioOtherHpa(s: State)
    ensures Apply(s, Some("kafka-hpa"), Updated(HpaMeta("ns", "other-hpa"), HpaMeta("ns", "other-hpa"))) == s
  {
    EnqueueAppendsIff(s, Some("kafka-hpa"), HpaMeta("ns", "other-hpa"));
  }
}
