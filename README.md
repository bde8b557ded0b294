# kubensage relay: broadcaster and stream handlers in Dafny

The relay receives metrics from agents over a gRPC client stream
(`SendMetrics`) and fans every sample out to the live subscribers of a
server stream (`SubscribeMetrics`). Between the two sits a `Broadcaster`: a
map from subscriber id to that subscriber's buffered Go channel, with a
non-blocking send that drops the sample for a subscriber whose channel is
full.

This project models that core in two modules:

- `Broadcasting` (`broadcaster.dfy`) covers `pkg/grpc/broadcaster.go`.
  - A channel is a value `Mailbox(items, capacity)`: the queued samples, oldest first, and the buffer size.
  - The registry is `map<string, Mailbox<M>>`, where samples are an opaque type parameter `M`.
  - The `Broadcaster` class holds the registry in a field. `Register`, `Unregister` and `Broadcast` update it in place.
  - `Broadcast` walks the keys in an order the model leaves unspecified, just as Go's map iteration does.
  - Its specification is the function `Fanout`, which applies the try-send `Offer` to every mailbox.
  - The receive `<-ch` of the owning subscriber is the method `Receive`, specified by `Take`.
  - Lemmas cover successive broadcasts (`FanoutAll`) and arbitrary sequences of registry calls (`ApplyAll`).
- `Server` (`server.dfy`) covers `pkg/grpc/server.go`.
  - `MetricsServer` owns one `Broadcaster`.
  - `SendMetrics` is a loop over the results `stream.Recv()` returns: a sample, EOF, or an error.
  - `SubscribeMetrics` registers a capacity-100 mailbox under a fresh id. It then runs the `select` loop over environment events and unregisters on every exit. The events are:
    - `Arrive(m)`: a concurrent broadcast;
    - `Ready(s)`: the mailbox case fires and `stream.Send` reports `s`;
    - `Cancel`: the context is done.
  - Each loop is proved equal to a specification function: `Ingest` for ingestion; `StepOn`, `Stream` and `Subscribe` for the subscription. The lemmas state the handlers' properties about those functions.

The two Go handlers return an `error`. Here it is `Status` (`Ok` or
`Failed(reason)`). A handler whose events run out before it returns is
reported as `Running`, meaning it is still blocked in `Recv` or `select`.

On end-of-stream, `SendMetrics` returns whatever `SendAndClose` reports
(server.go:58), so an end-of-stream whose acknowledgment fails returns
that failure, as the handler's doc comment at server.go:50 says. The
ingestion model takes that outcome as the parameter `ack`.

`Register` overwrites an existing entry, and the model keeps that. The
requirement that the id be fresh sits on `SubscribeMetrics`, because its
id comes from `uuid.New()`.

## Model

| member | source | states |
|---|---|---|
| Broadcasting.Offer | pkg/grpc/broadcaster.go:78-86 | the try-send keeps the capacity and either appends the sample at the tail or leaves the queue unchanged; it grows the queue exactly when there was room, and a bounded channel stays bounded |
| Broadcasting.Take | pkg/grpc/server.go:101 | a receive yields the oldest queued sample, the rest stay in order, and the capacity and boundedness are kept |
| Broadcasting.Fanout | pkg/grpc/broadcaster.go:73-89 | one broadcast keeps the set of registered ids. Every mailbox with room gets the sample appended, capacity unchanged. Every full mailbox is left exactly as it was, independently of the others. No mailbox exceeds its capacity |
| Broadcasting.FanoutAll | pkg/grpc/broadcaster.go:73-77 | any number of successive broadcasts never changes the set of registered ids |
| Broadcasting.FanoutAllAt | pkg/grpc/broadcaster.go:77-86 | across successive broadcasts each subscriber's mailbox evolves independently: it is its own mailbox offered each sample in turn |
| Broadcasting.OfferAllKeepsFirstArrivals | pkg/grpc/broadcaster.go:78-86 | a bounded mailbox offered samples ms in turn holds its old queue followed by the first `capacity - length` samples of ms; the rest are dropped |
| Broadcasting.FanoutAllKeepsFirstArrivals | pkg/grpc/broadcaster.go:77-86 | with nothing drained, a registered mailbox after successive broadcasts holds its old queue followed by the first samples that fit, in broadcast order, and keeps its capacity |
| Broadcasting.CapacityTwoKeepsFirstTwo | pkg/grpc/broadcaster.go:78-86 | with capacity 2, broadcasting m1, m2, m3 leaves exactly [m1, m2]; no mailbox is full before the first two broadcasts and the subscriber is the one full id before the third |
| Broadcasting.UnregisterIdempotent | pkg/grpc/broadcaster.go:55-58 | unregistering twice equals unregistering once, and unregistering an absent id changes nothing |
| Broadcasting.RegisterAllDistinct | pkg/grpc/broadcaster.go:41-44 | registering N pairwise distinct fresh ids adds exactly those N ids, each mapped to the mailbox it was registered with, and all existing entries stay unchanged |
| Broadcasting.ApplyAllKeepsBounded | pkg/grpc/broadcaster.go:41-89 | any sequence of register (with a bounded channel), unregister, broadcast and receive calls keeps every mailbox within its capacity |
| Broadcasting.Broadcaster.constructor | pkg/grpc/broadcaster.go:29-34 | a new broadcaster has no subscribers |
| Broadcasting.Broadcaster.Register | pkg/grpc/broadcaster.go:41-49 | the registry afterwards maps id to the given mailbox, and every other entry is as before |
| Broadcasting.Broadcaster.Unregister | pkg/grpc/broadcaster.go:55-63 | the registry afterwards is the old one without id; an absent id leaves it unchanged |
| Broadcasting.Broadcaster.Broadcast | pkg/grpc/broadcaster.go:73-89 | the loop over the map, in any order, leaves the registry equal to Fanout of the old one and reports as dropped exactly the ids whose mailbox was full |
| Broadcasting.Broadcaster.Receive | pkg/grpc/server.go:101 | the returned sample is the head of the subscriber's mailbox, which keeps the rest; no other entry changes |
| Server.Ingest | pkg/grpc/server.go:54-71 | the ingestion loop broadcasts at most one sample per input and sends at most one acknowledgment. An acknowledgment means it returned that acknowledgment's result. Still receiving means every input was a sample and the broadcasts are exactly those samples, in order, with nothing acknowledged |
| Server.IngestSamplesFirst | pkg/grpc/server.go:54-70 | samples received before anything else are broadcast first, in receipt order, followed by whatever the remaining input yields |
| Server.SamplesThenEndOfStream | pkg/grpc/server.go:55-59 | k samples then EOF: exactly those k samples are broadcast, in order. One acknowledgment is sent and its result is returned. Input after EOF is ignored |
| Server.SamplesThenError | pkg/grpc/server.go:60-63 | k samples then a receive error: the k samples are broadcast and that error is returned. No acknowledgment is sent and nothing later is broadcast |
| Server.SamplesOnly | pkg/grpc/server.go:54-71 | samples only: all are broadcast in order, nothing is acknowledged, and the loop is still receiving |
| Server.SplitAtFirstStop | pkg/grpc/server.go:55-63 | every input is a run of samples followed by nothing, or by the first EOF or error, so the three lemmas above cover all inputs |
| Server.StepOn | pkg/grpc/server.go:100-113 | a pass that goes on waiting leaves the subscriber registered |
| Server.StepNoRegistration | pkg/grpc/server.go:99-114 | no pass of the loop registers anything |
| Server.StepRegistry | pkg/grpc/server.go:100-112 | a pass that goes on keeps the same ids and the mailbox's capacity; a pass that returns removes exactly the subscriber's id |
| Server.StepUnregisters | pkg/grpc/server.go:94-97 | a pass that goes on unregisters nothing; a pass that returns runs exactly one Unregister, as its last action |
| Server.StepFailures | pkg/grpc/server.go:102-108 | a pass that goes on made no failed send. In a pass that returns, a failed send sits just before the Unregister and its error is the one returned. An error is returned only after such a send |
| Server.StepQueue | pkg/grpc/server.go:100-102 | for a pass that goes on, samples sent then still queued equal samples queued before then enqueued; a pass that returns sent at most one sample, and that sample was the head of the mailbox |
| Server.StreamRegistry | pkg/grpc/server.go:93-112 | while streaming the same ids are registered and the mailbox keeps its capacity; once returned, exactly the subscriber's id is gone and every other id remains |
| Server.StreamUnregistersOnce | pkg/grpc/server.go:94-97 | the deferred Unregister runs exactly once on every exit path, as the last action, and never while still streaming |
| Server.StreamNeverRegisters | pkg/grpc/server.go:99-114 | the streaming loop never registers |
| Server.StreamFailureEndsRun | pkg/grpc/server.go:102-108 | a failed send is always the action just before the final Unregister, and the handler returns exactly its error |
| Server.StreamErrorComesFromSend | pkg/grpc/server.go:102-112 | a handler that returns an error got it from the failed send just before the Unregister, and the error returned is that send's error |
| Server.StreamSuccessHasNoFailedSend | pkg/grpc/server.go:102-112 | a handler that returns success (by cancellation) made no failed send anywhere in its run |
| Server.StreamSendsInMailboxOrder | pkg/grpc/server.go:100-102 | the samples sent are a prefix of the old queue followed by the samples enqueued, so each is sent at most once and in mailbox order; while streaming, sent then still queued is exactly that sequence |
| Server.SubscribeLifecycle | pkg/grpc/server.go:88-115 | the handler registers once, first, and the registered mailbox is empty with capacity 100. It sends a prefix of what was enqueued, in order. While streaming, its id is registered. On every exit it unregisters exactly once, as the last action, leaving every other id registered and its own absent |
| Server.CancelBeforeAnySample | pkg/grpc/server.go:110-112 | a cancellation with nothing pending returns success without a send, and leaves the registry exactly as before the subscriber connected |
| Server.StreamCancelAnyTime | pkg/grpc/server.go:110-112 | a cancellation at any point of a loop that is still streaming returns success. Its only further action is one Unregister, with no send attempted, and the registry loses exactly the subscriber's id |
| Server.SubscribeCancelAnyTime | pkg/grpc/server.go:94-97 | the whole handler cancelled at any point while streaming returns success. Its trace is what it had done so far followed by the single Unregister, and its id is absent while every other id is still registered |
| Server.MetricsServer.constructor | pkg/grpc/server.go:31-36 | a new server owns a new, empty broadcaster |
| Server.MetricsServer.SendMetrics | pkg/grpc/server.go:51-72 | the loop's broadcasts, acknowledgments and return value are those of Ingest, and the registry afterwards is the old one after those broadcasts, in order |
| Server.MetricsServer.HandleEvent | pkg/grpc/server.go:100-113 | one pass of the select, over the broadcaster, does exactly what StepOn describes: the same actions, the same new registry, the same decision to return and the same status |
| Server.MetricsServer.SubscribeMetrics | pkg/grpc/server.go:88-115 | the handler's actions, return value and registry afterwards are those of Subscribe, so every Stream lemma and SubscribeLifecycle applies to it; every mailbox stays within its capacity |

## Left out

- Locking (`sync.RWMutex`) and goroutines. Each registry operation is one atomic step. Other handlers running concurrently appear to a subscription loop only as `Arrive` events; other subscribers registering or leaving during its loop are not modelled.
- Logging (`zap`) is not modelled. `Broadcast` returns the set of ids whose sample was dropped, where the source logs a warning.
- Server.MetricsServer.SubscribeMetrics: the id comes from `uuid.New()` in the source. Here it is a parameter that must not already be registered.
- The transport: `stream.Recv`, `Send`, `SendAndClose` and `Context().Done()`. They become event sequences chosen by the environment, including the choice `select` makes when both cases are ready. A finite sequence that ends before the handler returns leaves it `Running`, that is, still blocked.
- Broadcasting.Offer: unbuffered (capacity-0) channels are not modelled. On such a channel a try-send succeeds by handing the sample to a receiver already waiting in `<-ch`, while `Offer` always drops it. `Broadcaster.Register` accepts any mailbox, but its only caller creates capacity 100 (server.go:90).
- Protobuf message contents. Samples are an opaque type.
- Channels are held in the registry by value. A receive is the registry method `Receive`, not a read through a channel reference shared with the map. Aliasing of one channel under two ids is not modelled.
- The logger parameters of `NewBroadcaster` and `NewMetricsServer`.
- `cmd/relay/main.go` and `pkg/cli/config.go`: process start-up, flags and signal handling. They are not part of this model.
