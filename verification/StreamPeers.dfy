/**
  Peer connections over TCP: who holds which resource at each stage of connecting or
  listening, with and without SSL. A listener accepts clients into a pool of entries
  and hands a client's socket to the connection whose password it sends.
 */
module StreamPeers {
  import opened Bytes
  import opened Lists

  type Id = nat
  type ClientId = nat
  type Password = nat

  // The stages of a connection; Waiting is that of a client entry whose password is
  // awaited.
  datatype Stage =
    | Idle
    | Connecting | Handshake | Sending | Sent | Connected
    | Listening(password: Password) | GotClient | Accepted
    | Waiting

  datatype Resource =
    | Connector | Connection | SendIf | RecvIf | SslFd | SocketMemory
    | HandshakeSsl | PasswordSender | PasswordReceiver | PasswordEntry
    | IoSsl | InputLink | OutputSender | OutputLink

  datatype Holder = Peer(p: Id) | Client(c: ClientId)

  // What is held, by whom. Every resource that was ever acquired has its own number.
  type Holdings = map<(Holder, Resource), nat>

  /**
    Of the resources acquired so far, numbered from zero, each has been freed or is
    held, and none is held twice or after it was freed.
   */
  ghost predicate Ledger(held: Holdings, issued: nat, freed: set<nat>) {
    && (forall k {:trigger held[k]} :: k in held ==> held[k] < issued && held[k] !in freed)
    && (forall k, l {:trigger held[k], held[l]} :: k in held && l in held && held[k] == held[l] ==> k == l)
    && (forall i {:trigger i in freed} :: i in freed ==> i < issued)
    && (forall i {:trigger i in held.Values} :: 0 <= i < issued ==> i in freed || i in held.Values)
  }

  lemma LedgerAcquires(held: Holdings, issued: nat, freed: set<nat>, k: (Holder, Resource))
    requires Ledger(held, issued, freed) && k !in held
    ensures Ledger(held[k := issued], issued + 1, freed)
  {
    var held' := held[k := issued];
    forall i | 0 <= i < issued + 1 ensures i in freed || i in held'.Values {
      if i == issued {
        assert held'[k] == i;
      } else if i !in freed {
        assert i in held.Values;
        var l :| l in held && held[l] == i;
        assert held'[l] == i;
      }
    }
  }

  lemma LedgerReleases(held: Holdings, issued: nat, freed: set<nat>, k: (Holder, Resource))
    requires Ledger(held, issued, freed) && k in held
    ensures Ledger(held - {k}, issued, freed + {held[k]})
  {
    var held' := held - {k};
    forall i | 0 <= i < issued ensures i in freed + {held[k]} || i in held'.Values {
      if i !in freed && i != held[k] {
        assert i in held.Values;
        var l :| l in held && held[l] == i;
        assert held'[l] == i;
      }
    }
  }

  lemma LedgerTransfers(held: Holdings, issued: nat, freed: set<nat>, k: (Holder, Resource), k': (Holder, Resource))
    requires Ledger(held, issued, freed) && k in held && k' !in held
    ensures Ledger((held - {k})[k' := held[k]], issued, freed)
  {
    var held' := (held - {k})[k' := held[k]];
    forall i | 0 <= i < issued ensures i in freed || i in held'.Values {
      if i !in freed {
        assert i in held.Values;
        var l :| l in held && held[l] == i;
        assert held'[if l == k then k' else l] == i;
      }
    }
  }

  // What a socket is made of, and what input and output on it need.
  predicate InSocket(ssl: bool, r: Resource) {
    r.Connection? || (ssl && (r.SendIf? || r.RecvIf? || r.SslFd?))
  }

  predicate InIo(ssl: bool, r: Resource) {
    r.InputLink? || r.OutputSender? || r.OutputLink? || (if ssl then r.IoSsl? else r.SendIf? || r.RecvIf?)
  }

  /** The resources that belong to a stage. */
  predicate Needs(ssl: bool, stage: Stage, r: Resource) {
    match stage
    case Idle => false
    case Connecting => r.Connector?
    case Handshake => r.Connector? || r.HandshakeSsl? || InSocket(ssl, r)
    case Sending => r.Connector? || r.PasswordSender? || InSocket(ssl, r) || (if ssl then r.HandshakeSsl? else r.SendIf?)
    case Sent => r.Connector? || InSocket(ssl, r)
    case Connected => r.Connector? || InSocket(ssl, r) || InIo(ssl, r)
    case Listening(_) => r.PasswordEntry?
    case GotClient => r.SocketMemory? || InSocket(ssl, r)
    case Accepted => r.SocketMemory? || InSocket(ssl, r) || InIo(ssl, r)
    case Waiting =>
      r.SocketMemory? || r.Connection? || r.SendIf? || r.RecvIf? || r.PasswordReceiver? || (ssl && (r.SslFd? || r.HandshakeSsl?))
  }

  // ----- the orders in which things are set up and undone

  function InitIo(ssl: bool): seq<Resource> {
    (if ssl then [IoSsl] else [SendIf, RecvIf]) + [InputLink, OutputSender, OutputLink]
  }

  function FreeIo(ssl: bool): seq<Resource> {
    [OutputLink, OutputSender, InputLink] + if ssl then [IoSsl] else [RecvIf, SendIf]
  }

  function FreeSocket(ssl: bool): seq<Resource> {
    (if ssl then [SslFd, RecvIf, SendIf] else []) + [Connection]
  }

  // The switch of a reset: each stage falls through to what the stages before it have
  // set up.
  function ResetOrder(ssl: bool, stage: Stage): seq<Resource> {
    if stage.Accepted? || stage.GotClient? || stage.Listening? then
      (if stage.Accepted? then FreeIo(ssl) else [])
      + (if stage.Accepted? || stage.GotClient? then FreeSocket(ssl) + [SocketMemory] else [])
      + (if stage.Listening? then [PasswordEntry] else [])
    else if stage.Idle? then []
    else
      (if stage.Connected? then FreeIo(ssl) else [])
      + (if stage.Sending? then [PasswordSender] + if ssl then [] else [SendIf] else [])
      + (if stage.Connecting? then []
         else (if ssl && (stage.Handshake? || stage.Sending?) then [HandshakeSsl] else []) + FreeSocket(ssl))
      + [Connector]
  }

  // The stage of a connection, as opposed to that of a client entry.
  predicate OfPeer(ssl: bool, stage: Stage) {
    !stage.Waiting? && (stage.Handshake? ==> ssl)
  }

  predicate Precisely(rs: seq<Resource>, ssl: bool, stage: Stage) {
    NoDup(rs) && forall r: Resource :: r in rs <==> Needs(ssl, stage, r)
  }

  lemma IoIs(ssl: bool)
    ensures NoDup(FreeIo(ssl)) && forall r: Resource :: r in FreeIo(ssl) <==> InIo(ssl, r)
    ensures NoDup(InitIo(ssl)) && forall r: Resource :: r in InitIo(ssl) <==> InIo(ssl, r)
  {
    var links, ifs := [InputLink, OutputSender, OutputLink], if ssl then [IoSsl] else [SendIf, RecvIf];
    ConcatDistinct(ifs, links);
    ConcatDistinct([OutputLink, OutputSender, InputLink], if ssl then [IoSsl] else [RecvIf, SendIf]);
  }

  lemma SocketIs(ssl: bool)
    ensures NoDup(FreeSocket(ssl)) && forall r: Resource :: r in FreeSocket(ssl) <==> InSocket(ssl, r)
  {
    ConcatDistinct(if ssl then [SslFd, RecvIf, SendIf] else [], [Connection]);
  }

  // The end of the switch for connecting: the socket and the connector.
  lemma ResetSent(ssl: bool)
    ensures Precisely(FreeSocket(ssl) + [Connector], ssl, Sent) && Precisely(ResetOrder(ssl, Sent), ssl, Sent)
  {
    SocketIs(ssl);
    ConcatDistinct(FreeSocket(ssl), [Connector]);
    assert ResetOrder(ssl, Sent) == FreeSocket(ssl) + [Connector];
  }

  lemma ResetHandshake(ssl: bool)
    requires ssl
    ensures Precisely(ResetOrder(ssl, Handshake), ssl, Handshake)
  {
    var tail := FreeSocket(ssl) + [Connector];
    ResetSent(ssl);
    ConcatDistinct([HandshakeSsl], tail);
    assert ResetOrder(ssl, Handshake) == [HandshakeSsl] + tail;
  }

  lemma ResetSending(ssl: bool)
    ensures Precisely(ResetOrder(ssl, Sending), ssl, Sending)
  {
    var tail := FreeSocket(ssl) + [Connector];
    ResetSent(ssl);
    var head := [PasswordSender] + if ssl then [HandshakeSsl] else [SendIf];
    ConcatDistinct([PasswordSender], if ssl then [HandshakeSsl] else [SendIf]);
    ConcatDistinct(head, tail);
    assert ResetOrder(ssl, Sending) == head + tail;
  }

  lemma ResetConnected(ssl: bool)
    ensures Precisely(ResetOrder(ssl, Connected), ssl, Connected)
  {
    var tail := FreeSocket(ssl) + [Connector];
    ResetSent(ssl);
    IoIs(ssl);
    ConcatDistinct(FreeIo(ssl), tail);
    assert ResetOrder(ssl, Connected) == FreeIo(ssl) + tail;
  }

  lemma ResetGotClient(ssl: bool)
    ensures Precisely(FreeSocket(ssl) + [SocketMemory], ssl, GotClient) && Precisely(ResetOrder(ssl, GotClient), ssl, GotClient)
  {
    SocketIs(ssl);
    ConcatDistinct(FreeSocket(ssl), [SocketMemory]);
    assert ResetOrder(ssl, GotClient) == FreeSocket(ssl) + [SocketMemory];
  }

  lemma ResetAccepted(ssl: bool)
    ensures Precisely(ResetOrder(ssl, Accepted), ssl, Accepted)
  {
    var tail := FreeSocket(ssl) + [SocketMemory];
    ResetGotClient(ssl);
    IoIs(ssl);
    ConcatDistinct(FreeIo(ssl), tail);
    assert ResetOrder(ssl, Accepted) == FreeIo(ssl) + tail;
  }

  /** From every stage a reset releases precisely what the stage needs, each once. */
  lemma ResetExact(ssl: bool, stage: Stage)
    requires OfPeer(ssl, stage)
    ensures Precisely(ResetOrder(ssl, stage), ssl, stage)
  {
    match stage
    case Idle =>
    case Connecting => assert ResetOrder(ssl, stage) == [Connector];
    case Handshake => ResetHandshake(ssl);
    case Sending => ResetSending(ssl);
    case Sent => ResetSent(ssl);
    case Connected => ResetConnected(ssl);
    case Listening(_) => assert ResetOrder(ssl, stage) == [PasswordEntry];
    case GotClient => ResetGotClient(ssl);
    case Accepted => ResetAccepted(ssl);
  }

  // Giving up some resources of one stage and taking others leads to another stage.
  ghost predicate Leads(ssl: bool, from: Stage, give: seq<Resource>, take: seq<Resource>, to: Stage) {
    && NoDup(give) && (forall r: Resource :: r in give ==> Needs(ssl, from, r))
    && NoDup(take) && (forall r: Resource :: r in take ==> !Needs(ssl, from, r) || r in give)
    && (forall r: Resource :: Needs(ssl, to, r) <==> (Needs(ssl, from, r) && r !in give) || r in take)
  }

  function SetUpSsl(): seq<Resource> {
    [Connection, SendIf, RecvIf, SslFd, HandshakeSsl]
  }

  function SetUpPlain(): seq<Resource> {
    [Connection, SendIf, PasswordSender]
  }

  lemma ConnectorLeads(ssl: bool)
    ensures ssl ==> Leads(ssl, Connecting, [], SetUpSsl(), Handshake)
    ensures !ssl ==> Leads(ssl, Connecting, [], SetUpPlain(), Sending)
  {
  }

  // What sending the password has needed is given up, and input and output come.
  function AfterPassword(ssl: bool): seq<Resource> {
    [PasswordSender] + if ssl then [HandshakeSsl] else [SendIf]
  }

  lemma PasswordLeads(ssl: bool)
    ensures ssl ==> Leads(ssl, Handshake, [], [PasswordSender], Sending)
    ensures Leads(ssl, Sending, AfterPassword(ssl), [], Sent)
  {
    ConcatDistinct([PasswordSender], if ssl then [HandshakeSsl] else [SendIf]);
  }

  lemma IoLeads(ssl: bool)
    ensures Leads(ssl, Sent, [], InitIo(ssl), Connected)
    ensures Leads(ssl, GotClient, [], InitIo(ssl), Accepted)
  {
    IoIs(ssl);
  }

  // The client entry's receiver goes; its socket is what a connection needs.
  function Stripped(ssl: bool): seq<Resource> {
    [PasswordReceiver] + if ssl then [HandshakeSsl] else [RecvIf, SendIf]
  }

  function HandedOver(ssl: bool): seq<Resource> {
    [SocketMemory, Connection] + if ssl then [SendIf, RecvIf, SslFd] else []
  }

  function SetUpClient(ssl: bool): seq<Resource> {
    [SocketMemory, Connection, SendIf, RecvIf] + (if ssl then [SslFd, HandshakeSsl] else []) + [PasswordReceiver]
  }

  function FreeClient(ssl: bool): seq<Resource> {
    [PasswordReceiver] + (if ssl then [HandshakeSsl, SslFd] else []) + [RecvIf, SendIf, Connection, SocketMemory]
  }

  lemma ClientLeads(ssl: bool, w: Password)
    ensures Leads(ssl, Waiting, Stripped(ssl), [], GotClient)
    ensures Leads(ssl, GotClient, HandedOver(ssl), [], Idle)
    ensures Leads(ssl, Listening(w), [PasswordEntry], HandedOver(ssl), GotClient)
  {
    ConcatDistinct([PasswordReceiver], if ssl then [HandshakeSsl] else [RecvIf, SendIf]);
    ConcatDistinct([SocketMemory, Connection], if ssl then [SendIf, RecvIf, SslFd] else []);
  }

  lemma EntryLeads(ssl: bool)
    ensures Leads(ssl, Idle, [], SetUpClient(ssl), Waiting)
    ensures Leads(ssl, Waiting, FreeClient(ssl), [], Idle)
  {
    var base := [SocketMemory, Connection, SendIf, RecvIf];
    ConcatDistinct(base, if ssl then [SslFd, HandshakeSsl] else []);
    ConcatDistinct(base + if ssl then [SslFd, HandshakeSsl] else [], [PasswordReceiver]);
    ConcatDistinct([PasswordReceiver], if ssl then [HandshakeSsl, SslFd] else []);
    ConcatDistinct([PasswordReceiver] + if ssl then [HandshakeSsl, SslFd] else [], [RecvIf, SendIf, Connection, SocketMemory]);
  }

  // ----- what is kept

  // A holder has precisely the resources of a stage.
  ghost predicate AtStage(held: Holdings, h: Holder, ssl: bool, stage: Stage) {
    forall r: Resource {:trigger (h, r) in held} :: (h, r) in held <==> Needs(ssl, stage, r)
  }

  // Nobody but this holder has gained or lost anything.
  ghost predicate OnlyChanged(was: Holdings, held: Holdings, h: Holder) {
    forall g: Holder, r: Resource {:trigger (g, r) in held} :: g != h ==> ((g, r) in held <==> (g, r) in was)
  }

  ghost predicate BothChanged(was: Holdings, held: Holdings, h: Holder, g: Holder) {
    forall f: Holder, r: Resource {:trigger (f, r) in held} :: f != h && f != g ==> ((f, r) in held <==> (f, r) in was)
  }

  // What is held before and after is the same thing.
  ghost predicate Same(was: Holdings, held: Holdings) {
    forall k {:trigger held[k]} {:trigger was[k]} :: k in held && k in was ==> held[k] == was[k]
  }

  ghost predicate StageHeld(ssl: bool, stages: map<Id, Stage>, held: Holdings, p: Id)
    requires p in stages
  {
    AtStage(held, Peer(p), ssl, stages[p]) && OfPeer(ssl, stages[p])
  }

  ghost predicate PeersExact(ssl: bool, stages: map<Id, Stage>, held: Holdings) {
    forall p {:trigger StageHeld(ssl, stages, held, p)} :: p in stages ==> StageHeld(ssl, stages, held, p)
  }

  predicate Awaits(stages: map<Id, Stage>, p: Id, w: Password) {
    p in stages && stages[p] == Listening(w)
  }

  // A password is registered exactly while its connection is waiting for a client.
  ghost predicate PasswordsExact(stages: map<Id, Stage>, passwords: map<Password, Id>) {
    forall p: Id, w: Password {:trigger Awaits(stages, p, w)} :: Awaits(stages, p, w) <==> w in passwords && passwords[w] == p
  }

  // The client entries are used or free, and hold everything or nothing.
  ghost predicate ClientsExact(ssl: bool, clients: set<ClientId>, used: seq<ClientId>, free: seq<ClientId>, held: Holdings) {
    && NoDup(used) && NoDup(free)
    && (forall c :: c in used ==> c !in free && c in clients && AtStage(held, Client(c), ssl, Waiting))
    && (forall c :: c in free ==> c in clients && AtStage(held, Client(c), ssl, Idle))
    && (forall c :: c in clients ==> c in used || c in free)
  }

  // A connection changes its stage and with it what it holds; nobody else notices.
  lemma StageChange(ssl: bool, stages: map<Id, Stage>, held: Holdings, p: Id, stage: Stage, t: map<Id, Stage>, held': Holdings)
    requires PeersExact(ssl, stages, held) && OfPeer(ssl, stage) && t == stages[p := stage]
    requires OnlyChanged(held, held', Peer(p)) && AtStage(held', Peer(p), ssl, stage)
    ensures PeersExact(ssl, t, held')
  {
    forall q | q in t ensures StageHeld(ssl, t, held', q) {
      if q != p { assert StageHeld(ssl, stages, held, q); }
    }
  }

  lemma ClientsUnchanged(ssl: bool, clients: set<ClientId>, used: seq<ClientId>, free: seq<ClientId>, held: Holdings, p: Id, held': Holdings)
    requires ClientsExact(ssl, clients, used, free, held) && OnlyChanged(held, held', Peer(p))
    ensures ClientsExact(ssl, clients, used, free, held')
  {
    forall c | c in used ensures AtStage(held', Client(c), ssl, Waiting) { assert AtStage(held, Client(c), ssl, Waiting); }
    forall c | c in free ensures AtStage(held', Client(c), ssl, Idle) { assert AtStage(held, Client(c), ssl, Idle); }
  }

  lemma PeersUnchanged(ssl: bool, stages: map<Id, Stage>, held: Holdings, c: ClientId, held': Holdings)
    requires PeersExact(ssl, stages, held) && OnlyChanged(held, held', Client(c))
    ensures PeersExact(ssl, stages, held')
  {
    forall q | q in stages ensures StageHeld(ssl, stages, held', q) { assert StageHeld(ssl, stages, held, q); }
  }

  // Passwords come and go with the stage of waiting.
  lemma PasswordsChange(stages: map<Id, Stage>, passwords: map<Password, Id>, p: Id, stage: Stage)
    requires PasswordsExact(stages, passwords) && (stage.Listening? ==> stage.password !in passwords)
    ensures var gone := if p in stages && stages[p].Listening? then passwords - {stages[p].password} else passwords;
      PasswordsExact(stages[p := stage], if stage.Listening? then gone[stage.password := p] else gone)
  {
    var gone := if p in stages && stages[p].Listening? then passwords - {stages[p].password} else passwords;
    var t := stages[p := stage];
    var passwords' := if stage.Listening? then gone[stage.password := p] else gone;
    forall q: Id, w: Password ensures Awaits(t, q, w) <==> w in passwords' && passwords'[w] == q {
      assert Awaits(stages, q, w) <==> w in passwords && passwords[w] == q;
      assert Awaits(stages, p, w) <==> w in passwords && passwords[w] == p;
      if p in stages && stages[p].Listening? {
        assert Awaits(stages, p, stages[p].password);
      }
    }
  }

  // An entry that has given up what it held is free.
  lemma ClientGone(ssl: bool, clients: set<ClientId>, used: seq<ClientId>, free: seq<ClientId>, held: Holdings, c: ClientId, held': Holdings)
    requires ClientsExact(ssl, clients, used, free, held) && c in used && AtStage(held', Client(c), ssl, Idle)
    requires OnlyChanged(held, held', Client(c))
    ensures ClientsExact(ssl, clients, Remove(used, c), free + [c], held')
  {
    RemoveContents(used, c);
    forall d | d in used && d != c ensures AtStage(held', Client(d), ssl, Waiting) { assert AtStage(held, Client(d), ssl, Waiting); }
    forall d | d in free ensures AtStage(held', Client(d), ssl, Idle) { assert AtStage(held, Client(d), ssl, Idle); }
  }

  lemma ClientTaken(ssl: bool, clients: set<ClientId>, used: seq<ClientId>, free: seq<ClientId>, held: Holdings, c: ClientId, held': Holdings)
    requires ClientsExact(ssl, clients, used, free + [c], held) && AtStage(held', Client(c), ssl, Waiting)
    requires OnlyChanged(held, held', Client(c))
    ensures ClientsExact(ssl, clients, used + [c], free, held')
  {
    var all := free + [c];
    assert all[|free|] == c;
    assert forall i :: 0 <= i < |free| ==> free[i] == all[i];
    assert c !in free && c in all;
    forall d | d in free ensures d in all && AtStage(held', Client(d), ssl, Idle) { assert d in all; assert AtStage(held, Client(d), ssl, Idle); }
    forall d | d in used ensures AtStage(held', Client(d), ssl, Waiting) { assert AtStage(held, Client(d), ssl, Waiting); }
  }

  // The new holder has the old one's socket, and not another.
  ghost predicate SocketMoved(ssl: bool, was: Holdings, held: Holdings, h: Holder, g: Holder) {
    forall r :: r in HandedOver(ssl) ==> (h, r) in was && (g, r) in held && held[(g, r)] == was[(h, r)]
  }

  ghost predicate SocketFreed(ssl: bool, was: Holdings, freed: set<nat>, h: Holder) {
    forall r :: r in HandedOver(ssl) ==> (h, r) in was && was[(h, r)] in freed
  }

  lemma SocketKept(ssl: bool, was: Holdings, mid: Holdings, held: Holdings, h: Holder, g: Holder, stage: Stage)
    requires SocketMoved(ssl, was, mid, h, g) && AtStage(held, g, ssl, stage)
    ensures stage.Accepted? && Same(mid, held) ==> SocketMoved(ssl, was, held, h, g)
  {
    ClientLeads(ssl, 0);
    if stage.Accepted? && Same(mid, held) {
      forall r | r in HandedOver(ssl) ensures (g, r) in held && held[(g, r)] == was[(h, r)] {
        assert Needs(ssl, stage, r);
        assert held[(g, r)] == mid[(g, r)];
      }
    }
  }

  // The client's entry is free and the connection has the socket; nobody else notices.
  lemma SocketTaken(ssl: bool, stages: map<Id, Stage>, clients: set<ClientId>, used: seq<ClientId>, free: seq<ClientId>,
                    held: Holdings, p: Id, c: ClientId, held': Holdings)
    requires PeersExact(ssl, stages, held) && ClientsExact(ssl, clients, used, free, held) && c in used
    requires BothChanged(held, held', Client(c), Peer(p))
    requires AtStage(held', Client(c), ssl, Idle) && AtStage(held', Peer(p), ssl, GotClient)
    ensures PeersExact(ssl, stages[p := GotClient], held')
    ensures ClientsExact(ssl, clients, Remove(used, c), free + [c], held')
  {
    var mid := map k | k in held && k.0 != Client(c) :: held[k];
    ClientGone(ssl, clients, used, free, held, c, mid);
    PeersUnchanged(ssl, stages, held, c, mid);
    StageChange(ssl, stages, mid, p, GotClient, stages[p := GotClient], held');
    ClientsUnchanged(ssl, clients, Remove(used, c), free + [c], mid, p, held');
  }

  class System {
    const ssl: bool
    var stages: map<Id, Stage>
    var passwords: map<Password, Id>
    var clientsUsed: seq<ClientId>
    var clientsFree: seq<ClientId>
    ghost const clients: set<ClientId>
    ghost var held: Holdings
    ghost var issued: nat
    ghost var freed: set<nat>

    ghost predicate Balanced()
      reads this
    {
      Ledger(held, issued, freed)
    }

    ghost predicate Valid()
      reads this
    {
      && Balanced() && PeersExact(ssl, stages, held) && PasswordsExact(stages, passwords)
      && ClientsExact(ssl, clients, clientsUsed, clientsFree, held)
    }

    constructor (ssl: bool, peers: set<Id>, entries: seq<ClientId>)
      requires NoDup(entries)
      ensures Valid() && this.ssl == ssl && stages == (map p | p in peers :: Idle) && clientsFree == entries && clientsUsed == []
    {
      this.ssl := ssl;
      stages, passwords, clientsUsed, clientsFree := map p | p in peers :: Idle, map[], [], entries;
      clients, held, issued, freed := set c | c in entries, map[], 0, {};
    }

    // ----- acquiring and releasing

    // What is acquired gets a number of its own...
    ghost method Acquire(h: Holder, r: Resource)
      requires Balanced() && (h, r) !in held
      modifies this`held, this`issued
      ensures Balanced() && held == old(held)[(h, r) := old(issued)] && issued == old(issued) + 1
    {
      LedgerAcquires(held, issued, freed, (h, r));
      held := held[(h, r) := issued];
      issued := issued + 1;
    }

    // ...is freed once, by who holds it...
    ghost method Release(h: Holder, r: Resource)
      requires Balanced() && (h, r) in held
      modifies this`held, this`freed
      ensures Balanced() && held == old(held) - {(h, r)}
      ensures old(held[(h, r)]) !in old(freed) && freed == old(freed) + {old(held[(h, r)])}
    {
      LedgerReleases(held, issued, freed, (h, r));
      freed := freed + {held[(h, r)]};
      held := held - {(h, r)};
    }

    // ...and may change hands, which frees nothing and acquires nothing.
    ghost method Transfer(h: Holder, g: Holder, r: Resource)
      requires Balanced() && (h, r) in held && (g, r) !in held
      modifies this`held
      ensures Balanced() && held == old((held - {(h, r)})[(g, r) := held[(h, r)]])
    {
      LedgerTransfers(held, issued, freed, (h, r), (g, r));
      held := (held - {(h, r)})[(g, r) := held[(h, r)]];
    }

    ghost method ReleaseAll(h: Holder, rs: seq<Resource>)
      requires Balanced() && NoDup(rs) && forall r :: r in rs ==> (h, r) in held
      modifies this`held, this`freed
      ensures Balanced() && OnlyChanged(old(held), held, h) && Same(old(held), held)
      ensures forall r: Resource :: (h, r) in held <==> (h, r) in old(held) && r !in rs
      ensures old(freed) <= freed && forall r :: r in rs ==> (h, r) in old(held) && old(held)[(h, r)] in freed
    {
      for i := 0 to |rs|
        invariant Balanced() && OnlyChanged(old(held), held, h) && Same(old(held), held)
        invariant forall r: Resource :: (h, r) in held <==> (h, r) in old(held) && r !in rs[..i]
        invariant old(freed) <= freed && forall r :: r in rs[..i] ==> (h, r) in old(held) && old(held)[(h, r)] in freed
      {
        assert rs[i] !in rs[..i] && rs[i] in rs;
        assert rs[..i + 1] == rs[..i] + [rs[i]];
        Release(h, rs[i]);
      }
      assert rs[..|rs|] == rs;
    }

    ghost method AcquireAll(h: Holder, rs: seq<Resource>)
      requires Balanced() && NoDup(rs) && forall r :: r in rs ==> (h, r) !in held
      modifies this`held, this`issued
      ensures Balanced() && OnlyChanged(old(held), held, h) && Same(old(held), held)
      ensures forall r: Resource :: (h, r) in held <==> (h, r) in old(held) || r in rs
    {
      for i := 0 to |rs|
        invariant Balanced() && OnlyChanged(old(held), held, h) && Same(old(held), held)
        invariant forall r: Resource :: (h, r) in held <==> (h, r) in old(held) || r in rs[..i]
      {
        assert rs[i] !in rs[..i] && rs[i] in rs;
        assert rs[..i + 1] == rs[..i] + [rs[i]];
        Acquire(h, rs[i]);
      }
      assert rs[..|rs|] == rs;
    }

    ghost method TransferAll(h: Holder, g: Holder, rs: seq<Resource>)
      requires Balanced() && NoDup(rs) && h != g && forall r :: r in rs ==> (h, r) in held && (g, r) !in held
      modifies this`held
      ensures Balanced() && BothChanged(old(held), held, h, g)
      ensures forall r: Resource :: (h, r) in held <==> (h, r) in old(held) && r !in rs
      ensures forall r: Resource :: (g, r) in held <==> (g, r) in old(held) || r in rs
      ensures forall r :: r in rs ==> (h, r) in old(held) && (g, r) in held && held[(g, r)] == old(held)[(h, r)]
    {
      for i := 0 to |rs|
        invariant Balanced() && BothChanged(old(held), held, h, g)
        invariant forall r: Resource :: (h, r) in held <==> (h, r) in old(held) && r !in rs[..i]
        invariant forall r: Resource :: (g, r) in held <==> (g, r) in old(held) || r in rs[..i]
        invariant forall r: Resource :: (h, r) in held ==> held[(h, r)] == old(held)[(h, r)]
        invariant forall r :: r in rs[..i] ==> (h, r) in old(held) && (g, r) in held && held[(g, r)] == old(held)[(h, r)]
      {
        assert rs[i] !in rs[..i] && rs[i] in rs;
        assert rs[..i + 1] == rs[..i] + [rs[i]];
        Transfer(h, g, rs[i]);
      }
      assert rs[..|rs|] == rs;
    }

    // From one stage to another: first some resources go, then others come.
    ghost method Exchange(h: Holder, from: Stage, give: seq<Resource>, take: seq<Resource>, to: Stage)
      requires Balanced() && AtStage(held, h, ssl, from) && Leads(ssl, from, give, take, to)
      modifies this`held, this`issued, this`freed
      ensures Balanced() && AtStage(held, h, ssl, to) && OnlyChanged(old(held), held, h)
      ensures old(freed) <= freed && (give == [] ==> Same(old(held), held))
    {
      ReleaseAll(h, give);
      AcquireAll(h, take);
    }

    // ----- connections

    // The stage is set once its resources are there.
    method Advance(p: Id, give: seq<Resource>, take: seq<Resource>, to: Stage)
      requires Valid() && p in stages && !stages[p].Listening? && !to.Listening? && OfPeer(ssl, to)
      requires Leads(ssl, stages[p], give, take, to)
      modifies this`stages, this`held, this`issued, this`freed
      ensures Valid() && stages == old(stages)[p := to]
      ensures give == [] ==> Same(old(held), held)
    {
      ghost var before := held;
      assert StageHeld(ssl, stages, held, p);
      Exchange(Peer(p), stages[p], give, take, to);
      PasswordsChange(stages, passwords, p, to);
      StageChange(ssl, stages, before, p, to, stages[p := to], held);
      ClientsUnchanged(ssl, clients, clientsUsed, clientsFree, before, p, held);
      stages := stages[p := to];
    }

    /**
      From every stage a reset releases what is held, each thing once, and leaves
      nothing; a password that is still registered is unregistered.
     */
    method ResetState(p: Id)
      requires Valid() && p in stages
      modifies this`stages, this`passwords, this`held, this`freed
      ensures Valid() && stages == old(stages)[p := Idle]
      ensures passwords == old(if stages[p].Listening? then passwords - {stages[p].password} else passwords)
      ensures AtStage(held, Peer(p), ssl, Idle) && OnlyChanged(old(held), held, Peer(p))
      ensures forall r: Resource :: (Peer(p), r) in old(held) ==> old(held)[(Peer(p), r)] in freed
    {
      ghost var before := held;
      assert StageHeld(ssl, stages, held, p);
      ResetExact(ssl, stages[p]);
      ReleaseAll(Peer(p), ResetOrder(ssl, stages[p]));
      PasswordsChange(stages, passwords, p, Idle);
      if stages[p].Listening? {
        passwords := passwords - {stages[p].password};
      }
      StageChange(ssl, stages, before, p, Idle, stages[p := Idle], held);
      ClientsUnchanged(ssl, clients, clientsUsed, clientsFree, before, p, held);
      stages := stages[p := Idle];
    }

    method Connect(p: Id, ok: bool)
      requires Valid() && p in stages
      modifies this`stages, this`passwords, this`held, this`issued, this`freed
      ensures Valid() && stages == old(stages)[p := if ok then Connecting else Idle]
    {
      ResetState(p);
      if ok {
        Advance(p, [], [Connector], Connecting);
      }
    }

    // Setting up SSL can stop halfway; what there is is undone in reverse.
    method TrySsl(p: Id, got: seq<Resource>, undo: seq<Resource>)
      requires Valid() && ssl && p in stages && stages[p].Connecting?
      requires (got == [Connection, SendIf, RecvIf] && undo == [RecvIf, SendIf, Connection])
        || (got == [Connection, SendIf, RecvIf, SslFd] && undo == [SslFd, RecvIf, SendIf, Connection])
      modifies this`held, this`issued, this`freed
      ensures Valid()
    {
      ghost var before := held;
      assert StageHeld(ssl, stages, held, p);
      AcquireAll(Peer(p), got);
      ReleaseAll(Peer(p), undo);
      StageChange(ssl, stages, before, p, Connecting, stages, held);
      ClientsUnchanged(ssl, clients, clientsUsed, clientsFree, before, p, held);
    }

    /**
      The connector is done. How far setting up the connection gets is not up to this
      program: without a connection at all, without the SSL descriptor, or with it but
      without its options.
     */
    method ConnectorHandler(p: Id, connected: bool, haveFd: bool, configured: bool)
      requires Valid() && p in stages && stages[p].Connecting?
      modifies this`stages, this`passwords, this`held, this`issued, this`freed
      ensures Valid()
      ensures stages == old(stages)[p :=
        if !connected || (ssl && !(haveFd && configured)) then Idle else if ssl then Handshake else Sending]
    {
      assert StageHeld(ssl, stages, held, p);
      ConnectorLeads(ssl);
      if !connected {
        ResetState(p);
      } else if !ssl {
        Advance(p, [], SetUpPlain(), Sending);
      } else if haveFd && configured {
        Advance(p, [], SetUpSsl(), Handshake);
      } else {
        if haveFd {
          TrySsl(p, [Connection, SendIf, RecvIf, SslFd], [SslFd, RecvIf, SendIf, Connection]);
        } else {
          TrySsl(p, [Connection, SendIf, RecvIf], [RecvIf, SendIf, Connection]);
        }
        ResetState(p);
      }
    }

    // The handshake is over, or SSL has failed.
    method ConnectSslconHandler(p: Id, up: bool)
      requires Valid() && p in stages && ssl && (stages[p].Handshake? || (stages[p].Sending? && !up))
      modifies this`stages, this`passwords, this`held, this`issued, this`freed
      ensures Valid() && stages == old(stages)[p := if up then Sending else Idle]
    {
      if !up {
        ResetState(p);
        return;
      }
      PasswordLeads(ssl);
      Advance(p, [], [PasswordSender], Sending);
    }

    // The password has been sent: the connection is there.
    method PwsenderHandler(p: Id)
      requires Valid() && p in stages && stages[p].Sending?
      modifies this`stages, this`passwords, this`held, this`issued, this`freed
      ensures Valid() && stages == old(stages)[p := Connected]
    {
      PasswordLeads(ssl);
      IoLeads(ssl);
      Advance(p, AfterPassword(ssl), [], Sent);
      Advance(p, [], InitIo(ssl), Connected);
    }

    // The connection, the decoder or SSL reports an error.
    method HandleError(p: Id)
      requires Valid() && p in stages
      modifies this`stages, this`passwords, this`held, this`issued, this`freed
      ensures Valid() && stages == old(stages)[p := Idle]
    {
      ResetState(p);
    }

    // ----- listening

    // The password is drawn until it is one that nobody uses.
    method Listen(p: Id, password: Password)
      requires Valid() && p in stages && password !in passwords
      modifies this`stages, this`passwords, this`held, this`issued, this`freed
      ensures Valid() && stages == old(stages)[p := Listening(password)]
    {
      ResetState(p);
      ghost var before := held;
      assert StageHeld(ssl, stages, held, p);
      PasswordsChange(stages, passwords, p, Listening(password));
      Exchange(Peer(p), Idle, [], [PasswordEntry], Listening(password));
      StageChange(ssl, stages, before, p, Listening(password), stages[p := Listening(password)], held);
      ClientsUnchanged(ssl, clients, clientsUsed, clientsFree, before, p, held);
      passwords := passwords[password := p];
      stages := stages[p := Listening(password)];
    }

    // The listener is done with a client entry: it gives up what it holds.
    ghost method EmptyEntry(c: ClientId)
      requires Valid() && c in clientsUsed
      modifies this`held, this`issued, this`freed
      ensures Balanced() && PeersExact(ssl, stages, held) && OnlyChanged(old(held), held, Client(c))
      ensures ClientsExact(ssl, clients, Remove(clientsUsed, c), clientsFree + [c], held)
    {
      ghost var before := held;
      EntryLeads(ssl);
      assert AtStage(held, Client(c), ssl, Waiting);
      Exchange(Client(c), Waiting, FreeClient(ssl), [], Idle);
      ClientGone(ssl, clients, clientsUsed, clientsFree, before, c, held);
      PeersUnchanged(ssl, stages, before, c, held);
    }

    // The receiver and the password are given up; the socket changes hands.
    ghost method MoveSocket(p: Id, c: ClientId)
      requires Balanced() && AtStage(held, Client(c), ssl, Waiting)
      requires p in stages && stages[p].Listening? && AtStage(held, Peer(p), ssl, stages[p])
      modifies this`held, this`freed
      ensures Balanced() && AtStage(held, Client(c), ssl, Idle) && AtStage(held, Peer(p), ssl, GotClient)
      ensures BothChanged(old(held), held, Client(c), Peer(p))
      ensures SocketMoved(ssl, old(held), held, Client(c), Peer(p))
    {
      ClientLeads(ssl, stages[p].password);
      ReleaseAll(Client(c), Stripped(ssl));
      Release(Peer(p), PasswordEntry);
      ghost var mid := held;
      assert forall r :: r in HandedOver(ssl) ==> (Client(c), r) in mid && mid[(Client(c), r)] == old(held)[(Client(c), r)];
      TransferAll(Client(c), Peer(p), HandedOver(ssl));
    }

    /**
      A connection whose password a client has sent gets the client's socket, the very
      same: the listener unregisters the password, once and for all.
     */
    method HandOver(p: Id, c: ClientId, certOk: bool)
      requires Valid() && p in stages && stages[p].Listening? && c in clientsUsed
      modifies this
      ensures Valid() && stages == old(stages)[p := if ssl && !certOk then Idle else Accepted]
      ensures passwords == old(passwords) - {old(stages[p]).password}
      ensures clientsUsed == Remove(old(clientsUsed), c) && clientsFree == old(clientsFree) + [c]
      ensures !(ssl && !certOk) ==> SocketMoved(ssl, old(held), held, Client(c), Peer(p))
      ensures ssl && !certOk ==> SocketFreed(ssl, old(held), freed, Client(c))
    {
      TakeSocket(p, c);
      ghost var mid := held;
      CheckClient(p, certOk);
      assert StageHeld(ssl, stages, held, p);
      SocketKept(ssl, old(held), mid, held, Client(c), Peer(p), stages[p]);
    }

    method TakeSocket(p: Id, c: ClientId)
      requires Valid() && p in stages && stages[p].Listening? && c in clientsUsed
      modifies this`stages, this`passwords, this`clientsUsed, this`clientsFree, this`held, this`freed
      ensures Valid() && stages == old(stages)[p := GotClient]
      ensures passwords == old(passwords - {stages[p].password})
      ensures clientsUsed == Remove(old(clientsUsed), c) && clientsFree == old(clientsFree) + [c]
      ensures SocketMoved(ssl, old(held), held, Client(c), Peer(p))
    {
      ghost var before := held;
      assert StageHeld(ssl, stages, held, p) && AtStage(held, Client(c), ssl, Waiting);
      MoveSocket(p, c);
      PasswordsChange(stages, passwords, p, GotClient);
      SocketTaken(ssl, stages, clients, clientsUsed, clientsFree, before, p, c, held);
      passwords := passwords - {stages[p].password};
      stages := stages[p := GotClient];
      clientsUsed := Remove(clientsUsed, c);
      clientsFree := clientsFree + [c];
    }

    // The certificate is checked and input and output are set up.
    method CheckClient(p: Id, certOk: bool)
      requires Valid() && p in stages && stages[p].GotClient?
      modifies this`stages, this`passwords, this`held, this`issued, this`freed
      ensures Valid() && stages == old(stages)[p := if ssl && !certOk then Idle else Accepted]
      ensures passwords == old(passwords)
      ensures ssl && !certOk ==> forall r: Resource :: (Peer(p), r) in old(held) ==> old(held)[(Peer(p), r)] in freed
      ensures !(ssl && !certOk) ==> Same(old(held), held)
    {
      if ssl && !certOk {
        ResetState(p);
        return;
      }
      IoLeads(ssl);
      Advance(p, [], InitIo(ssl), Accepted);
    }

    // ----- the listener's clients

    method RemoveClient(c: ClientId)
      requires Valid() && c in clientsUsed
      modifies this
      ensures Valid() && stages == old(stages) && passwords == old(passwords)
      ensures clientsUsed == Remove(old(clientsUsed), c) && clientsFree == old(clientsFree) + [c]
    {
      EmptyEntry(c);
      clientsUsed := Remove(clientsUsed, c);
      clientsFree := clientsFree + [c];
    }

    /**
      A client connects. The oldest client makes way if there is no free entry; the
      entry stays free if the client cannot be set up.
     */
    method ListenerHandler(ok: bool)
      requires Valid() && clients != {}
      modifies this
      ensures Valid() && stages == old(stages) && passwords == old(passwords)
      ensures var rest := old(if clientsFree == [] && clientsUsed != [] then clientsUsed[1..] else clientsUsed);
        if ok then clientsUsed != [] && clientsUsed[..|clientsUsed| - 1] == rest else clientsUsed == rest
    {
      if clientsFree == [] {
        ghost var any :| any in clients;
        assert any in clientsUsed;
        RemoveClient(clientsUsed[0]);
      }
      if ok {
        TakeEntry();
      }
    }

    method TakeEntry()
      requires Valid() && clientsFree != []
      modifies this
      ensures Valid() && stages == old(stages) && passwords == old(passwords)
      ensures clientsUsed == old(clientsUsed + [clientsFree[|clientsFree| - 1]])
    {
      var c := clientsFree[|clientsFree| - 1];
      ghost var before := held;
      assert clientsFree == clientsFree[..|clientsFree| - 1] + [c];
      assert AtStage(held, Client(c), ssl, Idle);
      EntryLeads(ssl);
      Exchange(Client(c), Idle, [], SetUpClient(ssl), Waiting);
      ClientTaken(ssl, clients, clientsUsed, clientsFree[..|clientsFree| - 1], before, c, held);
      PeersUnchanged(ssl, stages, before, c, held);
      clientsFree := clientsFree[..|clientsFree| - 1];
      clientsUsed := clientsUsed + [c];
    }

    // A client has sent a password.
    method ClientReceiverHandler(c: ClientId, password: Password, certOk: bool)
      requires Valid() && c in clientsUsed
      modifies this
      ensures Valid() && password !in passwords
      ensures password in old(passwords) ==>
        stages == old(stages)[old(passwords[password]) := if ssl && !certOk then Idle else Accepted]
      ensures password !in old(passwords) ==> stages == old(stages)
    {
      if password !in passwords {
        RemoveClient(c);
        return;
      }
      var p := passwords[password];
      assert Awaits(stages, p, password);
      HandOver(p, c, certOk);
    }
  }
}
