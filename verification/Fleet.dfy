/**
 All endpoints together: events are published to the matching ones, and every
 other step concerns one endpoint. Models the fan-out of receivers.py.
 */
module Fleet {
  import opened Options
  import opened CircuitBreaker
  import R = RelayRuns

  type Endpoint = nat

  type Relays = map<Endpoint, R.Relay>

  /** The columns that decide which events go to an endpoint. */
  datatype Subscription = Subscription(enabled: bool, event: string)

  /** Publishing looks at the table of endpoints as it is at that moment. */
  datatype Event =
    | Publish(c: R.Chain, event: string, table: map<Endpoint, Subscription>)
    | On(endpoint: Endpoint, step: R.Event)

  /** `filter(enabled=True, event=event_name)` */
  function Matching(table: map<Endpoint, Subscription>, event: string): set<Endpoint> {
    set endpoint | endpoint in table && table[endpoint].enabled && table[endpoint].event == event
  }

  predicate CanPublish(relays: Relays, e: Event)
    requires e.Publish?
  {
    && e.table.Keys <= relays.Keys
    && forall endpoint :: endpoint in Matching(e.table, e.event) ==> e.c !in relays[endpoint].chains
  }

  function Step(cfg: Endpoint -> Config, relays: Relays, e: Event): Option<Relays> {
    match e
    case Publish(c, event, table) =>
      if CanPublish(relays, e)
      then Some(map endpoint | endpoint in relays ::
                  if endpoint in Matching(table, event)
                  then R.Move(relays[endpoint], c, R.Queued) else relays[endpoint])
      else None
    case On(endpoint, step) =>
      if endpoint !in relays || step.Enqueue? then None
      else match R.Step(cfg(endpoint), relays[endpoint], step)
           case None => None
           case Some(next) => Some(relays[endpoint := next])
  }

  function Run(cfg: Endpoint -> Config, relays: Relays, events: seq<Event>): Option<Relays>
    decreases |events|
  {
    if events == [] then Some(relays)
    else match Step(cfg, relays, events[0]) case None => None case Some(next) => Run(cfg, next, events[1..])
  }

  /** What one endpoint sees of an event. */
  function Seen(e: Event, endpoint: Endpoint): seq<R.Event> {
    match e
    case Publish(c, event, table) => if endpoint in Matching(table, event) then [R.Enqueue(c)] else []
    case On(other, step) => if endpoint == other then [step] else []
  }

  function SeenAll(events: seq<Event>, endpoint: Endpoint): seq<R.Event> {
    if events == [] then [] else Seen(events[0], endpoint) + SeenAll(events[1..], endpoint)
  }

  lemma SeenStep(cfg: Endpoint -> Config, relays: Relays, e: Event, endpoint: Endpoint)
    requires Step(cfg, relays, e).Some? && endpoint in relays
    ensures var next := Step(cfg, relays, e).value;
            endpoint in next && R.Run(cfg(endpoint), relays[endpoint], Seen(e, endpoint)) == Some(next[endpoint])
  {
    var next := Step(cfg, relays, e).value;
    var seen := Seen(e, endpoint);
    if seen != [] {
      assert seen[1..] == [];
      assert R.Step(cfg(endpoint), relays[endpoint], seen[0]) == Some(next[endpoint]);
    }
  }

  /**
   Endpoints do not interact: in every run of the fleet, each endpoint has made
   exactly the run of its own events, under its own configuration. Whatever
   holds over all runs of one endpoint thus holds of each endpoint of a fleet.
   */
  lemma {:induction false} EndpointsAreIndependent(cfg: Endpoint -> Config, relays: Relays, events: seq<Event>,
                                                   endpoint: Endpoint)
    requires Run(cfg, relays, events).Some? && endpoint in relays
    ensures var end := Run(cfg, relays, events).value;
            endpoint in end && R.Run(cfg(endpoint), relays[endpoint], SeenAll(events, endpoint)) == Some(end[endpoint])
    decreases |events|
  {
    if events != [] {
      var next := Step(cfg, relays, events[0]).value;
      SeenStep(cfg, relays, events[0], endpoint);
      EndpointsAreIndependent(cfg, next, events[1..], endpoint);
      R.RunConcat(cfg(endpoint), relays[endpoint], Seen(events[0], endpoint), SeenAll(events[1..], endpoint));
    }
  }

  /** Any other step is a step of one endpoint, possible whenever it is possible there. */
  lemma OthersStandStill(cfg: Endpoint -> Config, relays: Relays, endpoint: Endpoint, step: R.Event)
    requires endpoint in relays && !step.Enqueue?
    ensures Step(cfg, relays, On(endpoint, step)) == match R.Step(cfg(endpoint), relays[endpoint], step)
                                                     case None => None
                                                     case Some(next) => Some(relays[endpoint := next])
  {}

  /**
   Publishing queues its chain on each enabled endpoint for the event, changes
   nothing else there, and leaves every other endpoint as it was.
   */
  lemma PublishFansOut(cfg: Endpoint -> Config, relays: Relays, e: Event, endpoint: Endpoint)
    requires e.Publish? && e.table.Keys <= relays.Keys && endpoint in relays
    requires forall other :: other in e.table && e.table[other] == Subscription(true, e.event) ==>
               e.c !in relays[other].chains
    ensures Step(cfg, relays, e).Some? && Step(cfg, relays, e).value.Keys == relays.Keys
    ensures var before, after := relays[endpoint], Step(cfg, relays, e).value[endpoint];
            if endpoint in e.table && e.table[endpoint] == Subscription(true, e.event)
            then && e.c !in before.chains && e.c in after.chains && after.chains[e.c] == R.Queued
                 && after.chains - {e.c} == before.chains
                 && after == before.(chains := after.chains)
            else after == before
  {
    var before, after := relays[endpoint], Step(cfg, relays, e).value[endpoint];
    if endpoint in e.table && e.table[endpoint] == Subscription(true, e.event) {
      assert endpoint in Matching(e.table, e.event);
      assert after.chains - {e.c} == before.chains;
    }
  }
}
