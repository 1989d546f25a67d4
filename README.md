# HPA-driven Kafka replica controller, modelled in Dafny

The controller watches one HorizontalPodAutoscaler (HPA) and keeps the
`spec.kafka.replicas` field of a Strimzi `Kafka` custom resource in step with
the HPA's desired replica count. This project models its control loop:

- the event filter (`enqueueHpa`, with the add/update/delete handlers wired in `create`):
  it builds the key `"<namespace>/<name>"` and queues it only when
  `key.split("/")[1]` equals the configured HPA name;
- the bounded FIFO work queue (an `ArrayBlockingQueue` of capacity 1024);
- one iteration of the consumer loop of `run` and the loop that repeats it until
  the queue is empty: take the front key, drop it when it is empty or has no slash,
  look the HPA up in the namespace-scoped lister by the second `/`-segment,
  return from `run` when it is missing, otherwise reconcile;
- `reconcile`, which does nothing only when the HPA's current and desired counts
  and the Kafka replica count are all equal, and `updateKafkaWithRightReplicas`,
  which re-fetches the document and writes it back with only the replica field changed.

Modules:

- `Wrappers`: `Option`, for Java's nullable references.
- `Keys`: the key function, and Java's `String.split("/")` exactly as Java defines it.
  With no slash the result is the string itself. Otherwise it is the slash-separated
  pieces with the trailing empty ones dropped. `SecondSegment` is `split("/")[1]`,
  with `None` where Java throws `ArrayIndexOutOfBoundsException`.
- `Reconciliation`: the HPA status, the Kafka document (the replica field plus
  all other fields, opaque), the decision predicate `NeedsUpdate`, the patch
  `Update` and `Reconcile`.
- `Machine`: the whole controller state as a value (`queue`, `hpaCache`,
  `target`, `running`), the transition functions `Enqueue`, `Step`, `Drain`,
  `Apply`/`Run` over event sequences, and the lemmas.
- `HpaController`: the class `Controller`, whose fields are updated in place by
  `OnAdd`, `OnUpdate`, `OnDelete`, `EnqueueHpa`, `Step`, `Reconcile`,
  `UpdateKafkaWithRightReplicas` and `Drain`. Each is proved to have exactly the
  effect that the matching `Machine` or `Reconciliation` function gives.

How the environment is represented:

- The informer's cache, as the namespace-scoped lister sees it, is the map
  `hpaCache` from HPA name to status.
- The Kafka resource, as `client.customResource(...).get(namespace, kafkaClusterName)`
  returns it, is `target` (`None` for null).
- Whether the edit call succeeds is the parameter `editAccepted`. When it is false, the
  client threw, the exception was caught at Controller.java:156, and nothing was written.
- The configured HPA name (`KAFKA_HPA_NAME`) is the constant `hpaName`. It is `None` when
  the variable is unset, and then `equals` never matches.

Error paths, as the code has them:

- `split("/")[1]` on a key with nothing but slashes after the first slash (`"ns/"`)
  throws `ArrayIndexOutOfBoundsException`. In `enqueueHpa` this is the outcome
  `NoSecondSegment`, and nothing changes. In `run` the exception is not the
  `InterruptedException` that is caught, so `run` ends: the outcome is
  `IndexOutOfBounds`, with `running := false`.
- `add` on a full queue throws `IllegalStateException`. This is the outcome `QueueFull`,
  and the queue is unchanged.
- A null document at the first GET makes `kafkaCluster.get("spec")` at Controller.java:127
  throw NullPointerException, which is not caught, so `run` ends. This is the outcome `TargetMissing`, with `running := false`.
- The guard `key != null || !key.isEmpty()` (Controller.java:167) is always true for a
  non-null key, and keys are never null here. So the model has no guard at that point.

The code differs from what a reconcile loop of this kind usually promises; the model follows the code:

- A reconcile loop usually edits only when the target count differs from the desired
  count. This code compares three counts: when the Kafka count already equals the
  desired count but the HPA's current count differs, it edits again, writing the same value. `Machine.ScenarioScaleUp` shows this. Edit calls are
  repeated, but the document stays the same (`ReconcileDocumentFixedPoint`).
  The promised no-op holds once current == desired (`ReconcileIdempotent`, `StepIdempotent`).
- A reconcile loop would usually skip a vanished HPA and go on; this code returns from `run`.
- A reconcile loop would usually drop any malformed key and go on; here a key like `"ns/"` ends `run`, because `split("/")[1]` throws an exception that is not caught.
- Pending keys are not deduplicated: the same key can be queued many times.

## Model

| member | source | states |
|---|---|---|
| Keys.MetaNamespaceKey | src/main/java/org/appdynamics/saaseng/controller/Controller.java:165 | the key is the namespace, one slash, then the name |
| Keys.SecondSegmentSpec | src/main/java/org/appdynamics/saaseng/controller/Controller.java:102 | `split("/")[1]` exists exactly when a character other than a slash follows the first slash, and is then the text between the first slash and the next |
| Keys.KeySecondSegment | src/main/java/org/appdynamics/saaseng/controller/Controller.java:165-169 | for slash-free namespace and name, `split("/")[1]` of the key is the name; it throws when the name is empty |
| Keys.DropTrailingEmpty | src/main/java/org/appdynamics/saaseng/controller/Controller.java:169 | the result is a prefix of the pieces, ends in a non-empty piece, and only empty pieces were removed |
| Keys.PiecesAllEmpty | src/main/java/org/appdynamics/saaseng/controller/Controller.java:169 | all slash-separated pieces are empty exactly when the string consists of slashes only |
| Keys.WellFormed | src/main/java/org/appdynamics/saaseng/controller/Controller.java:99 | the key passes the guard exactly when it contains a slash; the emptiness test adds nothing |
| Keys.Split | src/main/java/org/appdynamics/saaseng/controller/Controller.java:102 | Java's `split("/")`: a slash-free string is its own single part; no part contains a slash; with a slash, the last part is non-empty; the first part is the text before the first slash |
| Keys.SecondSegment | src/main/java/org/appdynamics/saaseng/controller/Controller.java:102 | `split("/")[1]`, None where Java throws; the segment exists only for a key with a slash and has no slash itself |
| Reconciliation.NeedsUpdate | src/main/java/org/appdynamics/saaseng/controller/Controller.java:131 | a Kafka count or a current count that differs from the desired count always needs an edit; when none is needed, all three counts agree |
| Reconciliation.Update | src/main/java/org/appdynamics/saaseng/controller/Controller.java:141-160 | a document is written exactly when the re-fetch is non-null and the edit succeeds; it carries the desired count and every other field of the re-fetched document |
| Reconciliation.Reconcile | src/main/java/org/appdynamics/saaseng/controller/Controller.java:121-139 | no edit exactly when current, desired and Kafka counts are equal; otherwise the update runs with the desired count; a null document is the TargetMissing outcome |
| Reconciliation.UpdateIdempotent | src/main/java/org/appdynamics/saaseng/controller/Controller.java:151 | patching twice with the same count writes the same document as patching once |
| Reconciliation.ReconcileIdempotent | src/main/java/org/appdynamics/saaseng/controller/Controller.java:131-151 | after a successful edit with current == desired, reconciling again issues no edit |
| Reconciliation.ReconcileDocumentFixedPoint | src/main/java/org/appdynamics/saaseng/controller/Controller.java:131-137 | a document that already holds the desired count comes out of reconcile unchanged |
| Machine.Enqueue | src/main/java/org/appdynamics/saaseng/controller/Controller.java:162-174 | only the queue can change; an enqueue appends the object's key at the back, its second segment is the configured name, and the bound is kept |
| Machine.Step | src/main/java/org/appdynamics/saaseng/controller/Controller.java:97-115 | a running step with a non-empty queue removes exactly the front key; the cache is never written; `running` never turns back on; the document changes only through a successful edit |
| Machine.Drain | src/main/java/org/appdynamics/saaseng/controller/Controller.java:95-116 | the loop ends with an empty queue or with run returned; it never grows the queue, never restarts run and never writes the cache |
| Machine.Apply | src/main/java/org/appdynamics/saaseng/controller/Controller.java:56-71 | the add and update handlers enqueue, delete does nothing, a step consumes; no event writes the cache or restarts run, only a step can change the document, and the queue bound is kept |
| Machine.Run | src/main/java/org/appdynamics/saaseng/controller/Controller.java:56-116 | over any sequence of events the cache is never written and run is never restarted; without steps the document is untouched |
| Machine.EnqueueAppendsIff | src/main/java/org/appdynamics/saaseng/controller/Controller.java:165-171 | the key is appended exactly when the name equals the configured name (exact equality, non-empty) and the queue has room; otherwise the state is unchanged |
| Machine.OtherNameIgnored | src/main/java/org/appdynamics/saaseng/controller/Controller.java:58-65 | an add or update event for another name leaves the whole controller unchanged |
| Machine.DeleteIgnored | src/main/java/org/appdynamics/saaseng/controller/Controller.java:67-70 | a delete event leaves the whole controller unchanged |
| Machine.RunBounded | src/main/java/org/appdynamics/saaseng/controller/Controller.java:50 | no sequence of events takes the queue past its capacity of 1024 |
| Machine.IrrelevantEventsDoNothing | src/main/java/org/appdynamics/saaseng/controller/Controller.java:56-71 | from an empty queue, deletes, steps and events for other names change nothing |
| Machine.MalformedKeyDropped | src/main/java/org/appdynamics/saaseng/controller/Controller.java:98-115 | an empty or slash-less key is removed from the front and dropped; no lookup, no edit, the loop goes on |
| Machine.LookupBySecondSegment | src/main/java/org/appdynamics/saaseng/controller/Controller.java:102-109 | the lookup uses the text after the first slash up to the next one; an absent HPA stops run without touching the document; no such text ends run |
| Machine.LookupOfFilteredKey | src/main/java/org/appdynamics/saaseng/controller/Controller.java:102-110 | for a key built by the filter, the lookup uses exactly the HPA name |
| Machine.StepReconcileIff | src/main/java/org/appdynamics/saaseng/controller/Controller.java:123-138 | no edit exactly when the three counts are equal; otherwise a successful edit sets only the replica field to the desired count |
| Machine.StepTargetMissing | src/main/java/org/appdynamics/saaseng/controller/Controller.java:126-127 | a null document ends run |
| Machine.StepIdempotent | src/main/java/org/appdynamics/saaseng/controller/Controller.java:131-134 | the same key taken again after an edit with current == desired is a no-op |
| Machine.DrainConverges | src/main/java/org/appdynamics/saaseng/controller/Controller.java:95-116 | draining copies of one key leaves run looping, the queue empty and the document at the desired count with other fields unchanged |
| Machine.ScenarioScaleUp | src/main/java/org/appdynamics/saaseng/controller/Controller.java:131-137 | for any filtered key queued twice, desired 5, current 3, Kafka 3: the first step writes 5; the second edits again and the document stays at 5 |
| Machine.ScenarioConverged | src/main/java/org/appdynamics/saaseng/controller/Controller.java:131-134 | for any filtered key, all counts 4: no edit |
| Machine.ScenarioOtherHpa | src/main/java/org/appdynamics/saaseng/controller/Controller.java:169 | an event for other-hpa produces no work item |
| HpaController.Controller.constructor | src/main/java/org/appdynamics/saaseng/controller/Controller.java:39-51 | the controller starts with an empty queue of capacity 1024 |
| HpaController.Controller.OnAdd | src/main/java/org/appdynamics/saaseng/controller/Controller.java:58-60 | the add handler has the effect of Machine.Enqueue on the new object |
| HpaController.Controller.OnUpdate | src/main/java/org/appdynamics/saaseng/controller/Controller.java:63-65 | the update handler has the effect of Machine.Enqueue on the new object |
| HpaController.Controller.OnDelete | src/main/java/org/appdynamics/saaseng/controller/Controller.java:68-70 | the delete handler changes nothing |
| HpaController.Controller.EnqueueHpa | src/main/java/org/appdynamics/saaseng/controller/Controller.java:162-174 | the queue is updated as Machine.Enqueue says, keeping the bound |
| HpaController.Controller.Step | src/main/java/org/appdynamics/saaseng/controller/Controller.java:97-115 | the state changes as Machine.Step says |
| HpaController.Controller.Reconcile | src/main/java/org/appdynamics/saaseng/controller/Controller.java:121-139 | the outcome and the document are those of Reconciliation.Reconcile; a null document ends run |
| HpaController.Controller.UpdateKafkaWithRightReplicas | src/main/java/org/appdynamics/saaseng/controller/Controller.java:141-160 | the document is replaced by its patched copy exactly when the re-fetch is non-null and the edit succeeds |
| HpaController.Controller.Drain | src/main/java/org/appdynamics/saaseng/controller/Controller.java:95-116 | the state after the loop is Machine.Drain of the state before |

## Left out

- `Main.java`: client construction, the namespace fallback, informer factory setup
  and the unused RBAC builder are calls into the Kubernetes client library.
- The informer machinery (watch, resync, `hasSynced`) is left out. The cache is the map
  `hpaCache`. The key function is modelled as `namespace + "/" + name`, which is the
  library's result for a namespaced object; the library itself is not part of this model.
- The busy-wait on `hasSynced()` (Controller.java:91) and the outer `while(true)` spin
  (Controller.java:93) are left out. `Step` on an empty queue does nothing. No liveness or
  blocking `take()` is modelled.
- Concurrency between the informer callbacks and the consumer is left out, and so is the
  thread safety of the blocking queue. Events and steps are interleaved one at a time.
- The two GETs in `reconcile` and `updateKafkaWithRightReplicas` read the same `target`,
  because the model has no writer in between. So inside `Step` the re-fetch never
  returns null. `Reconciliation.Update` models that branch on its own.
- Drain: one `editAccepted` value holds for every step of the loop, so a drain in which one edit fails and a later one succeeds is not expressed by `Drain`; `Run` with one `Consumed` event per step expresses it.
- Run: `Added` and `Updated` events do not write `hpaCache`. The informer stores the object before it calls the handler; here the cache is a separate part of the state that the events leave as it is.
- EnqueueAppendsIff, OtherNameIgnored, Irrelevant, IrrelevantEventsDoNothing, LookupOfFilteredKey and the scenario lemmas assume namespaces and names without a slash, as Kubernetes enforces. `Enqueue` itself makes no such assumption: it compares the second segment, not the name, so an object named `b/c` in namespace `a` is queued when the configured name is `b`.
- Network errors thrown by the first GET (uncaught, ending `run`) are left out.
- JSON serialisation and the nested map casts are left out. The document is the replica
  field plus an opaque map of the other fields; a missing or mistyped `spec.kafka.replicas`
  is not modelled.
- A null HPA status (unboxing `Integer` counts) is left out.
- `InterruptedException` from `take()` is left out.
- Logging and `System.out`, the pod informer and the pod lister are left out.
- Environment variables are fixed configuration: `hpaName` for the HPA name, `target`
  for the resource `KAFKA_CLUSTER_NAME` names.
- Replica counts are unbounded integers. The code only compares and copies them, so
  32-bit width does not matter.
