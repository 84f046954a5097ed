/**
 * The per-process registry of WebSocket subscriptions. It keeps two indexes of one relation:
 * topic to sockets (`bySession`) and, on every socket, its own set of topics
 * (`subscriptions`). Both are updated in place and separately. The specification is the
 * relation itself, a plain set of (topic, socket) pairs.
 */
module ConnectionRegistry {

  /** The relation that a topic index stands for. */
  ghost function PairsOf<T>(index: map<string, set<T>>): set<(string, T)> {
    set topic, member | topic in index && member in index[topic] :: (topic, member)
  }

  /** `index.get(topic)`, with nothing for a topic that has no entry. */
  function At<T>(index: map<string, set<T>>, topic: string): set<T> {
    if topic in index then index[topic] else {}
  }

  lemma AttachedPairs<T>(before: map<string, set<T>>, after: map<string, set<T>>, topic: string, member: T)
    requires after - {topic} == before - {topic}
    requires At(after, topic) == At(before, topic) + {member}
    ensures PairsOf(after) == PairsOf(before) + {(topic, member)}
  {
    assert forall t, m :: m in At(after, t) <==> m in At(before, t) || (t, m) == (topic, member) by {
      OthersUnchanged(before, after, topic);
    }
  }

  lemma DetachedPairs<T>(before: map<string, set<T>>, after: map<string, set<T>>, topic: string, member: T)
    requires after - {topic} == before - {topic}
    requires At(after, topic) == At(before, topic) - {member}
    ensures PairsOf(after) == PairsOf(before) - {(topic, member)}
  {
    assert forall t, m :: m in At(after, t) <==> m in At(before, t) && (t, m) != (topic, member) by {
      OthersUnchanged(before, after, topic);
    }
  }

  lemma OthersUnchanged<T>(before: map<string, set<T>>, after: map<string, set<T>>, topic: string)
    requires after - {topic} == before - {topic}
    ensures forall t :: t != topic ==> At(after, t) == At(before, t)
  {
    forall t | t != topic
      ensures At(after, t) == At(before, t)
    {
      assert t in after <==> t in after - {topic};
      assert t in before <==> t in before - {topic};
      if t in after {
        assert (after - {topic})[t] == (before - {topic})[t];
      }
    }
  }

  /**
   * Without empty sets in it, an index holds nothing that the relation does not say: the
   * registry cannot leak entries for sessions nobody watches any more.
   */
  lemma PairsDetermineIndex<T>(a: map<string, set<T>>, b: map<string, set<T>>)
    requires forall topic :: topic in a ==> a[topic] != {}
    requires forall topic :: topic in b ==> b[topic] != {}
    ensures PairsOf(a) == PairsOf(b) <==> a == b
  {
    if PairsOf(a) == PairsOf(b) {
      PairsContain(a, b);
      PairsContain(b, a);
      assert a.Keys == b.Keys;
      forall topic | topic in a
        ensures a[topic] == b[topic]
      {
        assert a[topic] <= b[topic] && b[topic] <= a[topic];
      }
    }
  }

  lemma PairsContain<T>(a: map<string, set<T>>, b: map<string, set<T>>)
    requires forall topic :: topic in a ==> a[topic] != {}
    requires PairsOf(a) <= PairsOf(b)
    ensures forall topic :: topic in a ==> topic in b && a[topic] <= b[topic]
  {
    forall topic | topic in a
      ensures topic in b && a[topic] <= b[topic]
    {
      var someone :| someone in a[topic];
      assert (topic, someone) in PairsOf(a);
      forall member | member in a[topic]
        ensures topic in b && member in b[topic]
      {
        assert (topic, member) in PairsOf(a);
      }
    }
  }

  /** One connection. `sent` is what has been written to it. */
  class Socket {
    var subscriptions: set<string>
    var isOpen: bool
    var sent: seq<string>

    constructor ()
      ensures subscriptions == {} && isOpen && sent == []
    {
      subscriptions, isOpen, sent := {}, true, [];
    }
  }

  class ConnectionRegistry {
    var bySession: map<string, set<Socket>>
    // The sockets the registry has ever been given.
    ghost var known: set<Socket>

    ghost predicate Valid()
      reads this, known
    {
      && (forall topic :: topic in bySession ==> bySession[topic] != {})
      && (forall pair <- Pairs() :: pair.1 in known)
      && (forall socket, topic :: socket in known ==> (topic in socket.subscriptions <==> (topic, socket) in Pairs()))
    }

    /** A socket the registry may be called with: one it knows, or one that has no subscription yet. */
    ghost predicate Admissible(socket: Socket)
      reads this, socket
    {
      socket in known || socket.subscriptions == {}
    }

    ghost function Pairs(): set<(string, Socket)>
      reads this
    {
      PairsOf(bySession)
    }

    function Subscribers(topic: string): (sockets: set<Socket>)
      reads this
      ensures forall socket <- known + sockets :: socket in sockets <==> (topic, socket) in Pairs()
    {
      At(bySession, topic)
    }

    constructor ()
      ensures Valid() && Pairs() == {} && known == {}
    {
      bySession, known := map[], {};
    }

    method Subscribe(topic: string, socket: Socket)
      requires Valid() && Admissible(socket)
      modifies this, socket`subscriptions
      ensures Valid() && known == old(known) + {socket}
      ensures Pairs() == old(Pairs()) + {(topic, socket)}
      ensures socket.subscriptions == old(socket.subscriptions) + {topic}
    {
      if topic !in bySession {
        bySession := bySession[topic := {}];
      }
      bySession := bySession[topic := bySession[topic] + {socket}];
      AttachedPairs(old(bySession), bySession, topic, socket);
      socket.subscriptions := socket.subscriptions + {topic};
      known := known + {socket};
    }

    /** Deletes `socket` from the set of `topic`, and the set with it once it is empty. */
    method Detach(topic: string, socket: Socket)
      requires forall t :: t in bySession ==> bySession[t] != {}
      modifies this`bySession
      ensures forall t :: t in bySession ==> bySession[t] != {}
      ensures Pairs() == old(Pairs()) - {(topic, socket)}
    {
      if topic in bySession {
        bySession := bySession[topic := bySession[topic] - {socket}];
        if bySession[topic] == {} {
          bySession := bySession - {topic};
        }
      }
      DetachedPairs(old(bySession), bySession, topic, socket);
    }

    method Unsubscribe(topic: string, socket: Socket)
      requires Valid() && Admissible(socket)
      modifies this`bySession, socket`subscriptions
      ensures Valid()
      ensures Pairs() == old(Pairs()) - {(topic, socket)}
      ensures socket.subscriptions == old(socket.subscriptions) - {topic}
    {
      Detach(topic, socket);
      socket.subscriptions := socket.subscriptions - {topic};
    }

    method Remove(socket: Socket)
      requires Valid() && Admissible(socket)
      modifies this`bySession, socket`subscriptions
      ensures Valid()
      ensures Pairs() == set pair <- old(Pairs()) | pair.1 != socket
      ensures socket.subscriptions == {}
    {
      hide PairsOf;
      var rest := socket.subscriptions;
      while rest != {}
        invariant rest <= old(socket.subscriptions)
        invariant forall t :: t in bySession ==> bySession[t] != {}
        invariant Pairs() == set pair <- old(Pairs()) | pair.1 == socket ==> pair.0 !in old(socket.subscriptions) - rest
        decreases rest
      {
        var topic :| topic in rest;
        Detach(topic, socket);
        rest := rest - {topic};
      }
      socket.subscriptions := {};
    }

    method Broadcast(topic: string, message: string)
      requires Valid()
      modifies Subscribers(topic)`sent
      ensures Valid()
      ensures forall socket <- known ::
                socket.sent == old(socket.sent) +
                               if (topic, socket) in Pairs() && socket.isOpen then [message] else []
    {
      if topic !in bySession {
        return;
      }
      var rest := bySession[topic];
      while rest != {}
        invariant rest <= bySession[topic]
        invariant forall socket <- known ::
                    socket.sent == old(socket.sent) +
                                   if socket in bySession[topic] - rest && socket.isOpen then [message] else []
        decreases rest
      {
        var socket :| socket in rest;
        if socket.isOpen {
          socket.sent := socket.sent + [message];
        }
        rest := rest - {socket};
      }
    }
  }
}
