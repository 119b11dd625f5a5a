/**
 * The price hub (websocket-hub-do.ts): one object fanning prices out to web sockets. The
 * platform may drop its memory at any moment (hibernation) while the sockets stay connected;
 * each socket carries an attachment that survives.
 */
module PriceHub {
  import opened Common

  type Socket = nat
  type Key = string

  /**
   * sockets: what the platform reports as connected; attachments: what survives hibernation;
   * subscribers: the in-memory map.
   */
  datatype State = State(sockets: set<Socket>, attachments: map<Socket, set<Key>>, subscribers: map<Socket, set<Key>>)

  /** What the attachment of a socket says; none reads as the empty set. */
  function Saved(h: State, ws: Socket): set<Key> {
    if ws in h.attachments then h.attachments[ws] else {}
  }

  /** The in-memory map after rehydration: known sockets as they are, the others from their attachment. */
  function Hydrated(h: State): map<Socket, set<Key>> {
    map ws | ws in h.subscribers.Keys + h.sockets ::
      if ws in h.subscribers then h.subscribers[ws] else Saved(h, ws)
  }

  /** A socket gets a price when it watches the token, or watches nothing in particular. */
  predicate Wants(watched: set<Key>, token: Key) {
    token in watched || watched == {}
  }

  function Recipients(watching: map<Socket, set<Key>>, token: Key): set<Socket> {
    set ws | ws in watching && Wants(watching[ws], token)
  }

  // ─── Events ───────────────────────────────────────────────────────────────

  /**
   * persisted: the attachment write succeeded; replied: the acknowledgement was sent;
   * broken: sockets to which a send throws.
   */
  datatype Event =
    | Connect(ws: Socket)
    | Subscribe(ws: Socket, poolId: Key, persisted: bool, replied: bool)
    | Unsubscribe(ws: Socket, poolId: Key, persisted: bool, replied: bool)
    | Ping(ws: Socket, replied: bool)
    | Close(ws: Socket)
    | Price(token: Key, broken: set<Socket>)
    | Hibernate

  predicate Persisted(e: Event) {
    (e.Subscribe? || e.Unsubscribe?) ==> e.persisted
  }

  /** A watch list after a message; an empty pool id changes nothing. */
  function Watch(e: Event, watched: set<Key>): set<Key>
    requires e.Subscribe? || e.Unsubscribe?
  {
    if e.poolId == "" then watched
    else if e.Subscribe? then watched + {e.poolId} else watched - {e.poolId}
  }

  function OnMessage(h: State, e: Event): State
    requires e.Subscribe? || e.Unsubscribe?
  {
    var subs := Hydrated(h);
    if e.ws !in subs || e.poolId == "" then h.(subscribers := subs)
    else
      var watched := Watch(e, subs[e.ws]);
      State(h.sockets,
            if e.persisted then h.attachments[e.ws := watched] else h.attachments,
            if e.replied then subs[e.ws := watched] else subs - {e.ws})
  }

  /** A message that is only answered: ping, the list of tokens, or the error reply to a malformed one. */
  function OnPing(h: State, ws: Socket, replied: bool): State {
    h.(subscribers := if replied then Hydrated(h) else Hydrated(h) - {ws})
  }

  function OnConnect(h: State, ws: Socket): State {
    State(h.sockets + {ws}, h.attachments[ws := {}], h.subscribers[ws := {}])
  }

  function OnClose(h: State, ws: Socket): State {
    State(h.sockets - {ws}, h.attachments, h.subscribers - {ws})
  }

  function OnPrice(h: State, token: Key, broken: set<Socket>): State {
    var subs := Hydrated(h);
    h.(subscribers := subs - (Recipients(subs, token) * broken))
  }

  function Next(h: State, e: Event): State {
    match e
    case Connect(ws) => OnConnect(h, ws)
    case Subscribe(_, _, _, _) => OnMessage(h, e)
    case Unsubscribe(_, _, _, _) => OnMessage(h, e)
    case Ping(ws, replied) => OnPing(h, ws, replied)
    case Close(ws) => OnClose(h, ws)
    case Price(token, broken) => OnPrice(h, token, broken)
    case Hibernate => h.(subscribers := map[])
  }

  const FreshHub := State({}, map[], map[])

  function After(h: State, es: seq<Event>): State
    decreases |es|
  {
    if es == [] then h else Next(After(h, es[..|es| - 1]), es[|es| - 1])
  }

  /** A price as it was received: the token, and the sockets it reached. */
  datatype Delivery = Delivery(token: Key, reached: set<Socket>)

  function DeliveryOf(h: State, e: Event): seq<Delivery> {
    if e.Price? then [Delivery(e.token, Recipients(Hydrated(h), e.token) - e.broken)] else []
  }

  function Deliveries(h: State, es: seq<Event>): seq<Delivery>
    decreases |es|
  {
    if es == [] then []
    else
      var before := es[..|es| - 1];
      Deliveries(h, before) + DeliveryOf(After(h, before), es[|es| - 1])
  }

  // ─── The object ───────────────────────────────────────────────────────────

  class WebSocketHubDO {
    /** ctx.getWebSockets() */
    var sockets: seq<Socket>
    /** What deserializeAttachment gives, by socket. */
    var attachments: map<Socket, set<Key>>
    var subscribers: map<Socket, set<Key>>

    ghost function Contents(): State
      reads this
    {
      State((set ws | ws in sockets), attachments, subscribers)
    }

    constructor ()
      ensures Contents() == FreshHub
    {
      sockets, attachments, subscribers := [], map[], map[];
    }

    method Connect(ws: Socket)
      modifies this
      ensures Contents() == OnConnect(old(Contents()), ws)
    {
      sockets := sockets + [ws];
      attachments := attachments[ws := {}];
      subscribers := subscribers[ws := {}];
    }

    method HydrateSubscribers()
      modifies this`subscribers
      ensures Contents() == old(Contents()).(subscribers := Hydrated(old(Contents())))
    {
      ghost var before := Contents();
      for i := 0 to |sockets|
        invariant subscribers.Keys == before.subscribers.Keys + set ws | ws in sockets[..i]
        invariant forall ws :: ws in subscribers ==>
          subscribers[ws] == if ws in before.subscribers then before.subscribers[ws] else Saved(before, ws)
      {
        var ws := sockets[i];
        assert sockets[..i + 1] == sockets[..i] + [ws];
        if ws !in subscribers {
          subscribers := subscribers[ws := if ws in attachments then attachments[ws] else {}];
        }
      }
      assert sockets[..|sockets|] == sockets;
      assert subscribers == Hydrated(before);
    }

    /** Forgets a socket to which a send threw. */
    method SendToSocket(ws: Socket, replied: bool)
      modifies this`subscribers
      ensures subscribers == if replied then old(subscribers) else old(subscribers) - {ws}
    {
      if !replied {
        subscribers := subscribers - {ws};
      }
    }

    method PersistWatched(ws: Socket, watched: set<Key>, persisted: bool)
      modifies this`attachments
      ensures attachments == if persisted then old(attachments)[ws := watched] else old(attachments)
    {
      if persisted {
        attachments := attachments[ws := watched];
      }
    }

    method Ping(ws: Socket, replied: bool)
      modifies this`subscribers
      ensures Contents() == OnPing(old(Contents()), ws, replied)
    {
      HydrateSubscribers();
      if ws in subscribers {
        SendToSocket(ws, replied);
      }
    }

    /** A subscribe or unsubscribe message. */
    method WebSocketMessage(e: Event)
      requires e.Subscribe? || e.Unsubscribe?
      modifies this`subscribers, this`attachments
      ensures Contents() == OnMessage(old(Contents()), e)
    {
      ghost var before, subs := Contents(), Hydrated(Contents());
      HydrateSubscribers();
      if e.ws !in subscribers {
        return;
      }
      if e.poolId != "" {
        var watched := subscribers[e.ws];
        if e.Subscribe? {
          watched := watched + {e.poolId};
        } else {
          watched := watched - {e.poolId};
        }
        subscribers := subscribers[e.ws := watched];
        PersistWatched(e.ws, watched, e.persisted);
        SendToSocket(e.ws, e.replied);
        assert subscribers == if e.replied then subs[e.ws := watched] else subs - {e.ws};
      }
    }

    /** The platform drops the socket; the handler forgets it. */
    method WebSocketClose(ws: Socket)
      modifies this
      ensures Contents() == OnClose(old(Contents()), ws)
    {
      ghost var before := Contents();
      sockets := Filter(s => s != ws, sockets);
      forall s: Socket ensures s in sockets <==> s in before.sockets && s != ws {
        FilterMembers(s => s != ws, old(sockets), s);
      }
      subscribers := subscribers - {ws};
      assert Contents().sockets == before.sockets - {ws};
    }

    method BroadcastPrice(token: Key, broken: set<Socket>) returns (reached: set<Socket>)
      modifies this`subscribers
      ensures Contents() == OnPrice(old(Contents()), token, broken)
      ensures [Delivery(token, reached)] == DeliveryOf(old(Contents()), Price(token, broken))
    {
      ghost var before := Contents();
      HydrateSubscribers();
      ghost var wanted := Recipients(Hydrated(before), token);
      var todo := subscribers.Keys;
      reached := {};
      while todo != {}
        invariant todo <= Hydrated(before).Keys
        invariant reached == wanted - broken - todo
        invariant subscribers == Hydrated(before) - (wanted * broken - todo)
        decreases todo
      {
        var ws :| ws in todo;
        assert ws in subscribers && subscribers[ws] == Hydrated(before)[ws];
        if token in subscribers[ws] || subscribers[ws] == {} {
          if ws in broken {
            subscribers := subscribers - {ws};
          } else {
            reached := reached + {ws};
          }
        }
        todo := todo - {ws};
      }
      assert reached == wanted - broken;
      assert DeliveryOf(before, Price(token, broken)) == [Delivery(token, wanted - broken)];
    }

    /** The platform evicts the object from memory. */
    method Hibernate()
      modifies this`subscribers
      ensures Contents() == Next(old(Contents()), Event.Hibernate)
    {
      subscribers := map[];
    }
  }

  // ─── A hub that never sleeps and whose sends never fail ───────────────────

  function AwakeNext(watching: map<Socket, set<Key>>, e: Event): map<Socket, set<Key>> {
    match e
    case Connect(ws) => watching[ws := {}]
    case Subscribe(ws, _, _, _) => if ws in watching then watching[ws := Watch(e, watching[ws])] else watching
    case Unsubscribe(ws, _, _, _) => if ws in watching then watching[ws := Watch(e, watching[ws])] else watching
    case Ping(_, _) => watching
    case Close(ws) => watching - {ws}
    case Price(_, _) => watching
    case Hibernate => watching
  }

  function Awake(es: seq<Event>): map<Socket, set<Key>>
    decreases |es|
  {
    if es == [] then map[] else AwakeNext(Awake(es[..|es| - 1]), es[|es| - 1])
  }

  function AwakeDeliveryOf(watching: map<Socket, set<Key>>, e: Event): seq<Delivery> {
    if e.Price? then [Delivery(e.token, Recipients(watching, e.token) - e.broken)] else []
  }

  function AwakeDeliveries(es: seq<Event>): seq<Delivery>
    decreases |es|
  {
    if es == [] then []
    else
      var before, e := es[..|es| - 1], es[|es| - 1];
      AwakeDeliveries(before) + AwakeDeliveryOf(Awake(before), e)
  }

  // ─── Hibernation is invisible ─────────────────────────────────────────────

  /** Every in-memory entry belongs to a connected socket. */
  ghost predicate Valid(h: State) {
    h.subscribers.Keys <= h.sockets
  }

  /** Memory and attachments agree. */
  ghost predicate Synced(h: State) {
    forall ws :: ws in h.subscribers ==> h.subscribers[ws] == Saved(h, ws)
  }

  /** Every step keeps the in-memory map within the connected sockets. */
  lemma StepKeepsValid(h: State, e: Event)
    requires Valid(h)
    ensures Valid(Next(h, e))
  {}

  /** A step whose attachment write succeeds keeps memory and attachments in agreement. */
  lemma StepKeepsSynced(h: State, e: Event)
    requires Valid(h) && Synced(h) && Persisted(e)
    ensures Synced(Next(h, e))
  {}

  /** What a woken hub would read back. */
  function Woken(h: State): map<Socket, set<Key>> {
    map ws | ws in h.sockets :: Saved(h, ws)
  }

  lemma HydratedIsWoken(h: State)
    requires Valid(h) && Synced(h)
    ensures Hydrated(h) == Woken(h)
  {}

  lemma MessageRefinesAwake(h: State, e: Event)
    requires Valid(h) && Synced(h) && Persisted(e)
    requires e.Subscribe? || e.Unsubscribe?
    ensures Woken(OnMessage(h, e)) == AwakeNext(Woken(h), e)
  {
    HydratedIsWoken(h);
    var subs := Woken(h);
    if e.ws in subs && e.poolId != "" {
      assert Woken(OnMessage(h, e)) == subs[e.ws := Watch(e, subs[e.ws])];
    }
  }

  /** What a step does to the rehydrated map is what it does to a hub that never sleeps. */
  lemma StepRefinesAwake(h: State, e: Event)
    requires Valid(h) && Synced(h) && Persisted(e)
    ensures Woken(Next(h, e)) == AwakeNext(Woken(h), e)
  {
    if e.Subscribe? || e.Unsubscribe? {
      MessageRefinesAwake(h, e);
    }
  }

  lemma {:induction false} RunRefinesAwake(es: seq<Event>)
    requires forall e :: e in es ==> Persisted(e)
    ensures var h := After(FreshHub, es); Valid(h) && Synced(h) && Hydrated(h) == Awake(es)
  {
    if es != [] {
      var before, e := es[..|es| - 1], es[|es| - 1];
      RunRefinesAwake(before);
      var h := After(FreshHub, before);
      StepKeepsValid(h, e);
      StepKeepsSynced(h, e);
      HydratedIsWoken(h);
      StepRefinesAwake(h, e);
      HydratedIsWoken(Next(h, e));
    }
  }

  /**
   * For any sequence of connects, messages, closes, prices, failing sends and hibernations in
   * which the attachment writes succeed, each price reaches exactly the sockets that a hub
   * which never sleeps would reach.
   */
  lemma {:induction false} HibernationIsInvisible(es: seq<Event>)
    requires forall e :: e in es ==> Persisted(e)
    ensures Deliveries(FreshHub, es) == AwakeDeliveries(es)
  {
    if es != [] {
      HibernationIsInvisible(es[..|es| - 1]);
      RunRefinesAwake(es[..|es| - 1]);
    }
  }

  predicate NotHibernate(e: Event) {
    !e.Hibernate?
  }

  function WithoutHibernations(es: seq<Event>): seq<Event> {
    Filter(NotHibernate, es)
  }

  lemma AwakeUnfolds(es: seq<Event>, e: Event)
    ensures Awake(es + [e]) == AwakeNext(Awake(es), e)
    ensures AwakeDeliveries(es + [e]) == AwakeDeliveries(es) + AwakeDeliveryOf(Awake(es), e)
  {
    assert (es + [e])[..|es|] == es;
  }

  lemma StrikeUnfolds(es: seq<Event>, e: Event)
    ensures WithoutHibernations(es + [e]) == if e.Hibernate? then WithoutHibernations(es) else WithoutHibernations(es) + [e]
  {
    FilterConcat(NotHibernate, es, [e]);
    assert Filter(NotHibernate, [e]) == if e.Hibernate? then [] else [e];
  }

  lemma {:induction false} AwakeIgnoresHibernation(es: seq<Event>)
    ensures Awake(WithoutHibernations(es)) == Awake(es)
    ensures AwakeDeliveries(WithoutHibernations(es)) == AwakeDeliveries(es)
  {
    if es != [] {
      var before, e := es[..|es| - 1], es[|es| - 1];
      assert es == before + [e];
      AwakeIgnoresHibernation(before);
      AwakeUnfolds(before, e);
      StrikeUnfolds(before, e);
      if !e.Hibernate? {
        AwakeUnfolds(WithoutHibernations(before), e);
      }
    }
  }

  /** Hibernations may be struck from the history without changing any delivery. */
  lemma HibernationsCanBeStruck(es: seq<Event>)
    requires forall e :: e in es ==> Persisted(e)
    ensures Deliveries(FreshHub, WithoutHibernations(es)) == Deliveries(FreshHub, es)
  {
    var awake := WithoutHibernations(es);
    forall e: Event ensures e in awake ==> e in es {
      FilterMembers(NotHibernate, es, e);
    }
    AwakeIgnoresHibernation(es);
    HibernationIsInvisible(es);
    HibernationIsInvisible(awake);
  }

  // ─── Who gets a price, from the history alone ─────────────────────────────

  /** The socket's latest connect or close was a connect. */
  function Connected(es: seq<Event>, ws: Socket): bool
    decreases |es|
  {
    if es == [] then false
    else
      var e := es[|es| - 1];
      if e == Connect(ws) then true else if e == Close(ws) then false else Connected(es[..|es| - 1], ws)
  }

  /** Since the socket connected, its latest message about `key` was a subscription. */
  function Stands(es: seq<Event>, ws: Socket, key: Key): bool
    decreases |es|
  {
    if es == [] then false
    else
      var e := es[|es| - 1];
      if (e.Connect? || e.Close?) && e.ws == ws then false
      else if e.Subscribe? && e.ws == ws && e.poolId == key && key != "" then true
      else if e.Unsubscribe? && e.ws == ws && e.poolId == key && key != "" then false
      else Stands(es[..|es| - 1], ws, key)
  }

  ghost predicate AnyStands(es: seq<Event>, ws: Socket) {
    exists key :: Stands(es, ws, key)
  }

  /** The map of a hub that never sleeps is the standing subscriptions of the connected sockets. */
  lemma {:induction false} AwakeIsHistory(es: seq<Event>, ws: Socket)
    ensures ws in Awake(es) <==> Connected(es, ws)
    ensures Connected(es, ws) ==> forall key :: key in Awake(es)[ws] <==> Stands(es, ws, key)
    decreases |es|
  {
    if es != [] {
      AwakeIsHistory(es[..|es| - 1], ws);
    }
  }

  /**
   * A price reaches a socket exactly when the socket is connected, the send works, and its
   * latest message about the token subscribed or no subscription of it stands.
   */
  lemma ReachedIff(es: seq<Event>, token: Key, broken: set<Socket>, ws: Socket)
    requires forall e :: e in es ==> Persisted(e)
    ensures ws in DeliveryOf(After(FreshHub, es), Price(token, broken))[0].reached
       <==> && Connected(es, ws) && ws !in broken
            && (Stands(es, ws, token) || !AnyStands(es, ws))
  {
    RunRefinesAwake(es);
    AwakeIsHistory(es, ws);
    assert Hydrated(After(FreshHub, es)) == Awake(es);
    if Connected(es, ws) {
      NothingStandsIff(es, ws);
      assert ws in Recipients(Awake(es), token) <==> Wants(Awake(es)[ws], token);
    }
  }

  lemma NothingStandsIff(es: seq<Event>, ws: Socket)
    requires Connected(es, ws)
    ensures ws in Awake(es) && (Awake(es)[ws] == {} <==> !AnyStands(es, ws))
  {
    AwakeIsHistory(es, ws);
    if AnyStands(es, ws) {
      var key :| Stands(es, ws, key);
      assert key in Awake(es)[ws];
    }
    if Awake(es)[ws] != {} {
      var key :| key in Awake(es)[ws];
      assert Stands(es, ws, key);
    }
  }

  // ─── When an attachment write fails ───────────────────────────────────────

  lemma {:induction false} LongerThanAll(keys: set<Key>) returns (token: Key)
    ensures token != "" && forall k :: k in keys ==> |k| < |token|
  {
    if keys == {} {
      token := "a";
    } else {
      var k :| k in keys;
      var t := LongerThanAll(keys - {k});
      token := t + k;
    }
  }

  /** Two watch lists that differ are told apart by some token. */
  lemma WatchListsTellApart(a: set<Key>, b: set<Key>) returns (token: Key)
    requires a != b
    ensures Wants(a, token) != Wants(b, token)
  {
    if a == {} || b == {} {
      token := LongerThanAll(a + b);
    } else if k :| k in a && k !in b {
      token := k;
    } else {
      assert exists k :: k in b && k !in a by { assert a <= b; }
      token :| token in b && token !in a;
    }
  }

  /** The message's socket is connected and its watch list really changes. */
  predicate Changes(h: State, e: Event)
    requires e.Subscribe? || e.Unsubscribe?
  {
    e.ws in Hydrated(h) && Watch(e, Hydrated(h)[e.ws]) != Hydrated(h)[e.ws]
  }

  lemma HarmlessMessage(h: State, e: Event)
    requires Valid(h) && Synced(h)
    requires e.Subscribe? || e.Unsubscribe?
    requires e.persisted || !Changes(h, e)
    ensures Woken(Next(h, e)) == AwakeNext(Woken(h), e)
  {
    if e.persisted {
      MessageRefinesAwake(h, e);
    } else {
      HydratedIsWoken(h);
    }
  }

  /** Every price goes to the same sockets under both maps. */
  ghost predicate SameDeliveries(a: map<Socket, set<Key>>, b: map<Socket, set<Key>>) {
    forall token :: Recipients(a, token) == Recipients(b, token)
  }

  lemma HydratedAfterSleep(h: State)
    ensures Hydrated(Next(h, Hibernate)) == Woken(h)
  {}

  lemma LostChangeShows(h: State, e: Event) returns (token: Key)
    requires Valid(h) && Synced(h)
    requires e.Subscribe? || e.Unsubscribe?
    requires !e.persisted && Changes(h, e)
    ensures Recipients(Woken(Next(h, e)), token) != Recipients(AwakeNext(Woken(h), e), token)
  {
    HydratedIsWoken(h);
    var woken, awake := Woken(Next(h, e)), AwakeNext(Woken(h), e);
    assert woken[e.ws] == Saved(h, e.ws) && awake[e.ws] == Watch(e, Saved(h, e.ws));
    token := WatchListsTellApart(woken[e.ws], awake[e.ws]);
    assert (e.ws in Recipients(woken, token)) != (e.ws in Recipients(awake, token));
  }

  /**
   * Exactly when an acknowledged change survives the next hibernation: every price then goes
   * where a hub which never sleeps would send it if and only if the attachment write succeeded
   * or the message changed nothing.
   */
  lemma ChangeSurvivesIff(h: State, e: Event)
    requires Valid(h) && Synced(h)
    requires e.Subscribe? || e.Unsubscribe?
    ensures SameDeliveries(Hydrated(Next(Next(h, e), Hibernate)), AwakeNext(Hydrated(h), e))
            <==> e.persisted || !Changes(h, e)
  {
    HydratedIsWoken(h);
    HydratedAfterSleep(Next(h, e));
    if e.persisted || !Changes(h, e) {
      HarmlessMessage(h, e);
    } else {
      var token := LostChangeShows(h, e);
    }
  }
}
