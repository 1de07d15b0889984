/** The synchronous event bus of pkg/pattern/observer/sync.go. */
module SyncObserver {
  import opened Base
  import opened Observer

  /** SyncEventBus embeds a BaseEventBus; the embedded value is the `base`
      field, and Subscribe/Unsubscribe are called on it. */
  class SyncEventBus {
    const base: BaseEventBus

    /** NewSyncEventBus */
    constructor ()
      ensures fresh(base) && base.observers == map[]
    {
      base := new BaseEventBus();
    }

    /** Publish: call OnChange once on every subscriber of the event's topic,
        failures included, and collect the errors by observer. `onChange` is
        what each observer's OnChange returns for this event; `calls` is the
        order in which they were called. The registry is only read. */
    method Publish(e: Event, onChange: (ObserverId, Event) -> Option<Error>)
      returns (errs: map<ObserverId, Error>, ghost calls: seq<ObserverId>)
      ensures forall x :: x in calls <==> x in Subscribers(base.observers, e.topic)
      ensures forall i, j :: 0 <= i < j < |calls| ==> calls[i] != calls[j]
      ensures forall x :: x in errs <==> x in Subscribers(base.observers, e.topic) && onChange(x, e).Some?
      ensures forall x :: x in errs ==> errs[x] == onChange(x, e).value
    {
      var subscribers := Subscribers(base.observers, e.topic);
      errs := map[];
      calls := [];
      var todo := subscribers;
      while todo != {}
        invariant todo <= subscribers
        invariant forall x :: x in calls <==> x in subscribers && x !in todo
        invariant forall i, j :: 0 <= i < j < |calls| ==> calls[i] != calls[j]
        invariant forall x :: x in errs <==> x in subscribers && x !in todo && onChange(x, e).Some?
        invariant forall x :: x in errs ==> errs[x] == onChange(x, e).value
        decreases todo
      {
        var subscriber :| subscriber in todo;
        var err := onChange(subscriber, e);
        calls := calls + [subscriber];
        if err.Some? {
          errs := errs[subscriber := err.value];
        }
        todo := todo - {subscriber};
      }
    }
  }

  /** The scenario of sync_test.go: four observers on one topic, all of them
      succeeding, are each called once and no error is collected. */
  method PublishToFour() returns (errs: map<ObserverId, Error>)
    ensures errs == map[]
  {
    var bus := new SyncEventBus();
    var topic := "order_finish";
    bus.base.Subscribe(topic, 1);
    bus.base.Subscribe(topic, 2);
    bus.base.Subscribe(topic, 3);
    bus.base.Subscribe(topic, 4);
    assert Subscribers(bus.base.observers, topic) == {1, 2, 3, 4};
    ghost var calls;
    errs, calls := bus.Publish(Event(topic, 0), (o, e) => None);
    assert 1 in calls && 4 in calls;
  }
}
