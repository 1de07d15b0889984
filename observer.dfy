/** The observer registry of pkg/pattern/observer/base.go: a table from topic
    to the set of observers subscribed to it. Observers are compared by
    identity only, so they are modelled as ids. */
module Observer {

  type ObserverId = nat

  /** An event: a topic and an opaque value. */
  datatype Event = Event(topic: string, val: nat)

  /** map[string]map[Observer]struct{}: an inner map with empty values is a set. */
  type Registry = map<string, set<ObserverId>>

  /** The observers of a topic; a missing topic reads as the nil (empty) set. */
  function Subscribers(reg: Registry, topic: string): set<ObserverId>
  {
    if topic in reg then reg[topic] else {}
  }

  /** The registry after Subscribe(topic, o). */
  function Subscribed(reg: Registry, topic: string, o: ObserverId): (r: Registry)
    ensures r.Keys == reg.Keys + {topic}
    ensures r[topic] == Subscribers(reg, topic) + {o}
    ensures forall t :: t in reg && t != topic ==> r[t] == reg[t]
  {
    reg[topic := Subscribers(reg, topic) + {o}]
  }

  /** The registry after Unsubscribe(topic, o): delete on the nil map of an
      unknown topic does nothing, and a known topic keeps its key even when its
      set becomes empty. */
  function Unsubscribed(reg: Registry, topic: string, o: ObserverId): (r: Registry)
    ensures r.Keys == reg.Keys
    ensures topic in r ==> r[topic] == reg[topic] - {o}
    ensures forall t :: t in reg && t != topic ==> r[t] == reg[t]
  {
    if topic in reg then reg[topic := reg[topic] - {o}] else reg
  }

  /** Subscribing twice is subscribing once. */
  lemma SubscribeIdempotent(reg: Registry, topic: string, o: ObserverId)
    ensures Subscribed(Subscribed(reg, topic, o), topic, o) == Subscribed(reg, topic, o)
  {
  }

  /** Unsubscribing an observer that is not subscribed, or from an unknown
      topic, changes nothing. */
  lemma UnsubscribeAbsentIsNoop(reg: Registry, topic: string, o: ObserverId)
    requires o !in Subscribers(reg, topic)
    ensures Unsubscribed(reg, topic, o) == reg
  {
    if topic in reg {
      assert reg[topic] - {o} == reg[topic];
    }
  }

  /** Unsubscribe undoes Subscribe on the topic's set, but the topic key it
      created stays behind, possibly with an empty set. */
  lemma UnsubscribeAfterSubscribe(reg: Registry, topic: string, o: ObserverId)
    requires o !in Subscribers(reg, topic)
    ensures var r := Unsubscribed(Subscribed(reg, topic, o), topic, o);
            && r.Keys == reg.Keys + {topic}
            && r[topic] == Subscribers(reg, topic)
            && (topic !in reg ==> r[topic] == {})
  {
  }

  /** BaseEventBus; its RWMutex only serialises callers and is left out. */
  class BaseEventBus {
    var observers: Registry

    /** NewBaseEventBus */
    constructor ()
      ensures observers == map[]
    {
      observers := map[];
    }

    method Subscribe(topic: string, o: ObserverId)
      modifies this
      ensures observers == Subscribed(old(observers), topic, o)
    {
      if topic !in observers {
        observers := observers[topic := {}];
      }
      observers := observers[topic := observers[topic] + {o}];
    }

    method Unsubscribe(topic: string, o: ObserverId)
      modifies this
      ensures observers == Unsubscribed(old(observers), topic, o)
    {
      if topic in observers {
        observers := observers[topic := observers[topic] - {o}];
      }
    }
  }
}
