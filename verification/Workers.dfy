/** The connection tables of a worker (accept_new_conn, disconnect, process_read_event,
    process_write_event). */
module Workers {
  import opened Text
  import opened Rewriting
  import opened Messages
  import opened Parser
  import opened Fragments
  import opened Invariants
  import opened Relay
  import opened EndToEnd
  import opened Writer
  import opened Connections
  import opened System

  /** A client connection and what answers it. */
  class ProxyHandler {
    const client: NormalConnHandler
    const backend: Peer

    constructor (client: NormalConnHandler, backend: Peer)
      ensures this.client == client && this.backend == backend
    {
      this.client, this.backend := client, backend;
    }

    /** The connections of the pair. */
    ghost function Ends(): set<NormalConnHandler> {
      {client} + match backend case Normal(h) => {h} case _ => {}
    }

    /** init_link. */
    method InitLink()
      requires backend.Normal? ==> backend.handler != client
      modifies Ends()`rev
      ensures client.rev == backend
      ensures backend.Normal? ==> backend.handler.rev == Normal(client)
    {
      match backend {
        case Normal(h) => h.rev := Normal(client);
        case _ =>
      }
      client.rev := backend;
    }

    /** The two handlers are each other's peer. */
    ghost predicate Paired()
      reads Ends()`rev
    {
      && client.side.isRequest && client.rev == backend && backend != NoPeer
      && match backend
         case Normal(h) => h != client && !h.side.isRequest && h.rev == Normal(client)
         case _ => true
    }
  }

  /** Which end of a pair an event belongs to. */
  datatype Target = Nobody | ClientEnd(pair: ProxyHandler) | BackendEnd(pair: ProxyHandler)

  /** What a new client gets: a connection to the chosen backend, none, or the static files. */
  datatype BackendAnswer = Connected(fd: int, ip: string) | NoneAvailable | StaticRoot

  /** What epoll reports for a descriptor. */
  datatype Event = Event(fd: int, readable: bool, writable: bool)

  /** What happens to a worker: a client arrives, and this is what it gets and what the two sockets will
      answer to writes; or epoll reports an event, and this is what can be read. */
  datatype Action =
    | Arrival(fd: int, ip: string, answer: BackendAnswer, clientSocket: seq<Answer>, backendSocket: seq<Answer>)
    | Happening(event: Event, arrivals: seq<string>, end: ReadEnd)
  {
    /** What it brings to the parser behind this descriptor. */
    ghost function Reads(fd: int): seq<string> {
      if Happening? && event.fd == fd && event.readable && end == WouldBlock then [Concat(arrivals)] else []
    }

    /** It ends the connections with this descriptor, or can end them. */
    predicate Ends(fd: int) { Happening? && event.fd == fd && event.readable && end != WouldBlock }

    predicate MayEnd(fd: int) { Ends(fd) || (Happening? && event.fd == fd && !event.readable && event.writable) }

    /** The kernel would never hand these out. */
    predicate Possible() {
      && Arrival? && IsAddress(ip)
      && (answer.Connected? ==> IsAddress(answer.ip) && answer.fd != fd)
    }
  }

  /** What these bring to it. */
  ghost function AllReads(actions: seq<Action>, i: nat, j: nat, fd: int): seq<string>
    requires i <= j <= |actions|
    decreases j
  {
    if i == j then [] else AllReads(actions, i, j - 1, fd) + actions[j - 1].Reads(fd)
  }

  /** What has become of a pair: it has been destroyed, or its ends have parsed these reads. */
  datatype Status = Gone | There(client: seq<string>, backend: seq<string>)

  class Worker {
    var clientToBackend: map<int, ProxyHandler>
    var backendToClient: map<int, ProxyHandler>
    /** The repair: a client that goes away takes its backend's table entry along. */
    const tablesRepaired: bool
    /** Which chunk parser the connections have. */
    const parserRepaired: bool
    /** The pairs that have not been destroyed; their connections are the open ones. */
    var live: set<ProxyHandler>
    /** The process has aborted, or is in a loop that never ends. */
    var halted: bool

    constructor (tablesRepaired: bool, parserRepaired: bool)
      ensures this.tablesRepaired == tablesRepaired && this.parserRepaired == parserRepaired
      ensures live == {} && !halted && TablesOk()
    {
      this.tablesRepaired, this.parserRepaired := tablesRepaired, parserRepaired;
      clientToBackend, backendToClient, live, halted := map[], map[], {}, false;
    }

    predicate OpenClient(fd: int)
      reads this
    {
      exists p :: p in live && p.client.connFd == fd
    }

    predicate OpenBackend(fd: int)
      reads this
    {
      exists p :: p in live && HasBackend(p, fd)
    }

    static predicate HasBackend(p: ProxyHandler, fd: int) {
      p.backend.Normal? && p.backend.handler.connFd == fd
    }

    /** A backend's table entry whose pair has been destroyed. */
    predicate Dangling(fd: int)
      reads `backendToClient, `live
    {
      fd in backendToClient && backendToClient[fd] !in live
    }

    /** There is none: every key of the backends' table belongs to a live pair. */
    ghost predicate ExactKeys()
      reads `backendToClient, `live
    {
      forall fd :: fd in backendToClient ==> backendToClient[fd] in live
    }

    /** Every live pair is found under both its descriptors, and no descriptor is open twice. With the
        repair nothing else is in the tables. */
    static ghost predicate Mapped(clients: map<int, ProxyHandler>, backends: map<int, ProxyHandler>,
                                  live: set<ProxyHandler>, repaired: bool)
    {
      && (forall fd :: fd in clients ==> clients[fd] in live && clients[fd].client.connFd == fd)
      && (forall p :: p in live ==> p.client.connFd in clients && clients[p.client.connFd] == p)
      && (forall p :: p in live && p.backend.Normal? ==>
            && p.backend.handler.connFd !in clients
            && p.backend.handler.connFd in backends && backends[p.backend.handler.connFd] == p)
      && (forall fd :: fd in backends ==> HasBackend(backends[fd], fd))
      && (repaired ==> forall fd :: fd in backends ==> backends[fd] in live)
    }

    ghost predicate MapsOk()
      reads this
    {
      Mapped(clientToBackend, backendToClient, live, tablesRepaired)
    }

    /** The tables without a pair whose client's end has been closed. */
    static lemma ClientErased(clients: map<int, ProxyHandler>, backends: map<int, ProxyHandler>,
                              live: set<ProxyHandler>, repaired: bool, fd: int)
      requires Mapped(clients, backends, live, repaired) && fd in clients
      ensures var p := clients[fd];
              var rest := if repaired && p.backend.Normal? then backends - {p.backend.handler.connFd} else backends;
              Mapped(clients - {fd}, rest, live - {p}, repaired)
    {
    }

    /** The tables without a pair whose backend's end has been closed. */
    static lemma BackendErased(clients: map<int, ProxyHandler>, backends: map<int, ProxyHandler>,
                               live: set<ProxyHandler>, repaired: bool, fd: int)
      requires Mapped(clients, backends, live, repaired) && fd in backends && backends[fd] in live
      ensures var p := backends[fd];
              Mapped(clients - {p.client.connFd}, backends - {fd}, live - {p}, repaired)
    {
    }

    /** The tables are right, and the two ends of every live pair are each other's peer. */
    ghost predicate TablesOk()
      reads *
    {
      MapsOk() && forall p :: p in live ==> p.Paired()
    }

    /** As written, an entry of a destroyed pair that the lookup finds. */
    predicate Stale(fd: int)
      reads this
    {
      fd !in clientToBackend && Dangling(fd)
    }

    /** The lookup of process_read_event and process_write_event. */
    function Resolve(fd: int): Target
      reads this
    {
      if fd in clientToBackend then ClientEnd(clientToBackend[fd])
      else if fd in backendToClient then BackendEnd(backendToClient[fd])
      else Nobody
    }

    /** An open descriptor resolves to the one live pair that owns it, at the right end. Anything else
        resolves to nothing, or, as written, to the destroyed pair of a stale entry. */
    lemma ResolveIsRight(fd: int)
      requires TablesOk()
      ensures forall p :: p in live && p.client.connFd == fd ==> Resolve(fd) == ClientEnd(p)
      ensures forall p :: p in live && HasBackend(p, fd) ==> Resolve(fd) == BackendEnd(p)
      ensures !OpenClient(fd) && !OpenBackend(fd) ==> Resolve(fd) == Nobody || Stale(fd)
      ensures Resolve(fd).ClientEnd? ==> Resolve(fd).pair in live && Resolve(fd).pair.client.connFd == fd
      ensures Resolve(fd).BackendEnd? ==>
                HasBackend(Resolve(fd).pair, fd) && (Resolve(fd).pair in live <==> !Stale(fd))
      ensures tablesRepaired ==> !Stale(fd)
    {
    }

    /** The pairs that own a descriptor are the one it resolves to. */
    lemma OnlyOwner(fd: int)
      requires TablesOk() && !Stale(fd)
      ensures (set p | p in live && (p.client.connFd == fd || HasBackend(p, fd)))
              == if fd in clientToBackend then {clientToBackend[fd]}
                 else if fd in backendToClient then {backendToClient[fd]}
                 else {}
    {
    }

    /** Closing the client's end `fd` of one of these pairs leaves its backend's descriptor `k` behind. */
    static predicate LosesClient(pairs: set<ProxyHandler>, fd: int, k: int) {
      exists p :: p in pairs && p.client.connFd == fd && HasBackend(p, k)
    }

    /** disconnect. An entry is left behind exactly by a client's end of a pair with a backend; no other
        disconnect leaves one, and none takes one away. */
    method Disconnect(fd: int)
      requires TablesOk() && !Stale(fd)
      modifies this
      ensures TablesOk() && halted == old(halted)
      ensures live == old(live) - (set p | p in old(live) && (p.client.connFd == fd || HasBackend(p, fd)))
      ensures !OpenClient(fd) && !OpenBackend(fd)
      ensures old(Resolve(fd)) == Nobody ==>
                clientToBackend == old(clientToBackend) && backendToClient == old(backendToClient)
      ensures forall p :: p in old(live) && p.client.connFd == fd && p.backend.Normal? ==>
                (Stale(p.backend.handler.connFd) <==> !tablesRepaired)
      ensures forall k :: Dangling(k) <==> old(Dangling(k)) || (!tablesRepaired && LosesClient(old(live), fd, k))
      ensures old(ExactKeys()) ==> (ExactKeys() <==> tablesRepaired || !exists k :: LosesClient(old(live), fd, k))
    {
      hide ProxyHandler.Paired;
      OnlyOwner(fd);
      if fd in clientToBackend {
        ClientErased(clientToBackend, backendToClient, live, tablesRepaired, fd);
        var pair := clientToBackend[fd];
        clientToBackend := clientToBackend - {fd};
        if tablesRepaired && pair.backend.Normal? {
          backendToClient := backendToClient - {pair.backend.handler.connFd};
        }
        live := live - {pair};
      } else if fd in backendToClient {
        BackendErased(clientToBackend, backendToClient, live, tablesRepaired, fd);
        var pair := backendToClient[fd];
        var clientFd := pair.client.connFd;
        backendToClient := backendToClient - {fd};
        clientToBackend := clientToBackend - {clientFd};
        live := live - {pair};
      }
      forall q | q in live ensures q.Paired() {
        assert old(q.Paired());
      }
    }

    /** The table entries of a new pair. */
    method Register(pair: ProxyHandler)
      requires MapsOk() && pair !in live
      requires var fd := pair.client.connFd; !OpenClient(fd) && !OpenBackend(fd)
      requires pair.backend.Normal? ==>
                 var fd := pair.backend.handler.connFd;
                 fd != pair.client.connFd && !OpenClient(fd) && !OpenBackend(fd)
      requires forall fd :: fd in backendToClient ==> backendToClient[fd] != pair
      modifies this
      ensures MapsOk() && live == old(live) + {pair} && halted == old(halted)
      ensures forall k :: Dangling(k) <==> old(Dangling(k)) && !HasBackend(pair, k)
    {
      clientToBackend := clientToBackend[pair.client.connFd := pair];
      if pair.backend.Normal? {
        backendToClient := backendToClient[pair.backend.handler.connFd := pair];
      }
      live := live + {pair};
    }

    /** The keys of the tables: those of the clients are the open client descriptors, and those of the
        backends are the open backend descriptors and, without the repair, the dangling ones. */
    lemma KeysAreOpen(fd: int)
      requires TablesOk()
      ensures fd in clientToBackend <==> OpenClient(fd)
      ensures OpenBackend(fd) ==> fd in backendToClient
      ensures fd in backendToClient <==> OpenBackend(fd) || Dangling(fd)
      ensures tablesRepaired ==> (fd in backendToClient <==> OpenBackend(fd))
      ensures !(OpenBackend(fd) && Dangling(fd)) && (tablesRepaired ==> !Dangling(fd))
      ensures !(OpenClient(fd) && OpenBackend(fd))
    {
    }

    /** The keys of the backends' table are the open backend descriptors exactly when no entry dangles. */
    lemma KeysAreExactIff()
      requires TablesOk()
      ensures (forall fd :: fd in backendToClient <==> OpenBackend(fd)) <==> ExactKeys()
    {
      if forall fd :: fd in backendToClient <==> OpenBackend(fd) {
        forall fd ensures !Dangling(fd) {
          if fd in backendToClient {
            assert OpenBackend(fd);
          }
        }
      } else {
        var fd :| !(fd in backendToClient <==> OpenBackend(fd));
        KeysAreOpen(fd);
        assert Dangling(fd);
      }
    }

    // ---- events --------------------------------------------------------------------------------------

    /** One end of a pair keeps its parser's promises. */
    static ghost predicate EndOk(h: NormalConnHandler)
      reads h`rev, h`state, h`rawBuffer, h`tmpContext, h`delivered, h`rejected, h`thrown, h`pieces
    {
      IsAddress(h.side.ip) && Valid(h.side, h.ParseState()) && h.HistoryOk()
    }

    static ghost predicate PairOk(p: ProxyHandler)
      reads p.Ends()
    {
      && p.Paired() && p.client.BothWritersOk() && p.client.BothAccounts()
      && forall h :: h in p.Ends() ==> EndOk(h)
    }

    /** Neither parser of the pair has killed or stopped the process. */
    static ghost predicate Reading(p: ProxyHandler)
      reads p.Ends()`state
    {
      forall h :: h in p.Ends() ==> !Dead(h.state)
    }

    /** Two pairs share no connection. */
    lemma PairsAreDisjoint(p: ProxyHandler, q: ProxyHandler)
      requires TablesOk() && p in live && q in live && p != q
      ensures p.Ends() !! q.Ends()
    {
    }

    /** Seen from the backend's end, the pair is as sound as from the client's. */
    static lemma BackendSide(p: ProxyHandler)
      requires PairOk(p) && p.backend.Normal?
      ensures p.backend.handler.BothWritersOk() && p.backend.handler.BothAccounts()
      ensures p.backend.handler.Others() == {p.client} && p.client.Others() == {p.backend.handler}
    {
      hide Accounts, EndOk, NormalConnHandler.WriterOk;
    }

    /** The pair that an event belongs to, if any. */
    static ghost predicate Owns(p: ProxyHandler, fd: int) {
      p.client.connFd == fd || HasBackend(p, fd)
    }

    /** The end of its pair that the lookup found. */
    static function EndAt(target: Target): NormalConnHandler
      requires target != Nobody && (target.BackendEnd? ==> target.pair.backend.Normal?)
    {
      if target.ClientEnd? then target.pair.client else target.pair.backend.handler
    }

    /** This end of the pair has parsed what arrived, behind what had arrived before, unless the connection
        ended with it; the other end has read nothing. */
    static twostate predicate WasRead(p: ProxyHandler, h: NormalConnHandler, arrivals: seq<string>, end: ReadEnd)
      reads p.Ends()
    {
      forall k :: k in p.Ends() ==>
        k.pieces == if k == h && end == WouldBlock then old(k.pieces) + [Concat(arrivals)] else old(k.pieces)
    }

    /** This end has written what its socket took; neither end has read anything. */
    static twostate predicate WasWritten(p: ProxyHandler, h: NormalConnHandler)
      reads p.Ends(), h
    {
      h.Out() == old(h.Out()).Written() && forall k :: k in p.Ends() ==> k.pieces == old(k.pieces)
    }

    /** The end of the pair with this descriptor has sent nothing of what was waiting. */
    static twostate predicate NotWritten(p: ProxyHandler, fd: int)
      reads p.Ends()
    {
      forall h :: h in p.Ends() && h.connFd == fd && old(h.isSending) ==> h.wire == old(h.wire)
    }

    /** A read event for the client's end of a pair. */
    static method ReadClient(p: ProxyHandler, arrivals: seq<string>, end: ReadEnd) returns (failed: bool, dead: bool)
      requires PairOk(p) && Reading(p) && !HasBackend(p, p.client.connFd)
      modifies p.Ends()
      ensures p.Paired() && (!failed ==> PairOk(p)) && (!dead ==> Reading(p)) && !(failed && dead)
      ensures WasRead(p, p.client, arrivals, end)
      ensures failed == (end != WouldBlock) && dead == Dead(p.client.state)
      ensures NotWritten(p, p.client.connFd)
    {
      hide Valid, IsAddress;
      hide NormalConnHandler.HistoryOk, NormalConnHandler.BothWritersOk, NormalConnHandler.BothAccounts;
      ghost var others := p.client.Others();
      failed := p.client.HandleReadEvent(arrivals, end);
      dead := Dead(p.client.state);
    }

    /** A read event for the backend's end. */
    static method ReadBackend(p: ProxyHandler, arrivals: seq<string>, end: ReadEnd) returns (failed: bool, dead: bool)
      requires PairOk(p) && Reading(p) && p.backend.Normal? && !HasBackend(p, p.client.connFd)
      modifies p.Ends()
      ensures p.Paired() && (!failed ==> PairOk(p)) && (!dead ==> Reading(p)) && !(failed && dead)
      ensures WasRead(p, p.backend.handler, arrivals, end)
      ensures failed == (end != WouldBlock) && dead == Dead(p.backend.handler.state)
      ensures NotWritten(p, p.backend.handler.connFd)
    {
      hide Valid, IsAddress;
      hide NormalConnHandler.HistoryOk, NormalConnHandler.BothWritersOk, NormalConnHandler.BothAccounts;
      BackendSide(p);
      failed := p.backend.handler.HandleReadEvent(arrivals, end);
      dead := Dead(p.backend.handler.state);
      ClientSide(p);
    }

    /** A write event for one end of a pair. */
    static method WriteEnd(target: Target) returns (failed: bool)
      requires target != Nobody && PairOk(target.pair) && (target.BackendEnd? ==> target.pair.backend.Normal?)
      modifies target.pair.Ends()
      ensures target.pair.Paired() && PairOk(target.pair)
      ensures old(Reading(target.pair)) ==> Reading(target.pair)
      ensures WasWritten(target.pair, EndAt(target)) && failed == old(EndAt(target).Out()).Send().1.Broken?
    {
      hide EndOk, NormalConnHandler.BothAccounts, NormalConnHandler.WriterOk;
      var p := target.pair;
      ghost var others := p.client.Others();
      match target {
        case ClientEnd(_) => failed := p.client.WriteEvent();
        case BackendEnd(_) => failed := p.backend.handler.WriteEvent();
      }
    }

    static lemma ClientSide(p: ProxyHandler)
      requires p.Paired() && p.backend.Normal?
      ensures p.backend.handler.BothWritersOk() ==> p.client.BothWritersOk()
      ensures p.backend.handler.BothAccounts() ==> p.client.BothAccounts()
    {
      hide Accounts, NormalConnHandler.WriterOk;
    }

    /** Tables, links, parsers, queues and accounts are in order, and unless the process has halted none
        of its parsers has. */
    ghost predicate AllPairsOk()
      reads *
    {
      TablesOk() && forall p :: p in live ==> PairOk(p) && (halted || Reading(p))
    }

    /** The kernel hands out descriptors that are not open. They may be named in a stale table entry. */
    predicate Grants(clientFd: int, clientIp: string, answer: BackendAnswer)
      reads this
    {
      && IsAddress(clientIp) && !OpenClient(clientFd) && !OpenBackend(clientFd)
      && (answer.Connected? ==>
            IsAddress(answer.ip) && answer.fd != clientFd && !OpenClient(answer.fd) && !OpenBackend(answer.fd))
    }

    /** accept_new_conn, once the client's socket is accepted and new_backend_fd has answered. The last two
        are what the sockets will answer to writes. */
    method AcceptNewConn(clientFd: int, clientIp: string, answer: BackendAnswer,
                         clientSocket: seq<Answer>, backendSocket: seq<Answer>) returns (pair: ProxyHandler)
      requires AllPairsOk() && !halted && Grants(clientFd, clientIp, answer)
      modifies this
      ensures AllPairsOk() && !halted && live == old(live) + {pair}
      ensures IsNewPair(pair, clientFd, clientIp, answer, parserRepaired)
      ensures pair.client.answers == clientSocket && forall h :: h in pair.Ends() ==> h.pieces == []
      ensures pair.backend.Normal? ==> pair.backend.handler.answers == backendSocket
      ensures fresh(pair) && fresh(pair.Ends())
      ensures forall k :: Dangling(k) <==> old(Dangling(k)) && !HasBackend(pair, k)
    {
      hide PairOk, Reading, Mapped, IsAddress, Dangling, ProxyHandler.Paired;
      ghost var others := live;
      pair := NewPair(clientFd, clientIp, answer, clientSocket, backendSocket, parserRepaired);
      forall q | q in others ensures PairOk(q) && Reading(q) && q.Paired() {
        PairUntouched(q);
        PairIsPaired(q);
      }
      Admit(pair);
    }

    /** Pairs whose connections have not changed keep what they promise. */
    static twostate lemma PairUntouched(p: ProxyHandler)
      requires forall h :: h in p.Ends() ==> unchanged(h)
      ensures old(PairOk(p)) ==> PairOk(p)
      ensures old(Reading(p)) ==> Reading(p)
      ensures old(p.Paired()) ==> p.Paired()
    {
    }

    /** The new pair joins the others. */
    method Admit(pair: ProxyHandler)
      requires AllPairsOk() && !halted && PairOk(pair) && Reading(pair) && pair !in live
      requires var fd := pair.client.connFd; !OpenClient(fd) && !OpenBackend(fd)
      requires pair.backend.Normal? ==>
                 var fd := pair.backend.handler.connFd;
                 fd != pair.client.connFd && !OpenClient(fd) && !OpenBackend(fd)
      requires forall fd :: fd in backendToClient ==> backendToClient[fd] != pair
      modifies this
      ensures AllPairsOk() && !halted && live == old(live) + {pair}
      ensures forall k :: Dangling(k) <==> old(Dangling(k)) && !HasBackend(pair, k)
    {
      hide PairOk, Reading, MapsOk, OpenClient, OpenBackend, HasBackend, Dangling, ProxyHandler.Paired;
      Register(pair);
      forall q | q in live ensures PairOk(q) && Reading(q) && q.Paired() {
        PairUntouched(q);
        PairIsPaired(q);
      }
    }

    static lemma PairIsPaired(p: ProxyHandler)
      requires PairOk(p)
      ensures p.Paired()
    {
    }

    /** The client's end has the client's descriptor and address, the backend's end those of the backend that
        was chosen, if any. */
    static predicate IsNewPair(pair: ProxyHandler, clientFd: int, clientIp: string, answer: BackendAnswer,
                               parserRepaired: bool)
    {
      && pair.client.connFd == clientFd && pair.client.side == Side(true, clientIp, parserRepaired)
      && match answer
         case Connected(fd, ip) => HasBackend(pair, fd) && pair.backend.handler.side == Side(false, ip, parserRepaired)
         case NoneAvailable => pair.backend == FailedBackend
         case StaticRoot => pair.backend == StaticFiles
    }

    /** The handlers of a new client, linked. */
    static method NewPair(clientFd: int, clientIp: string, answer: BackendAnswer,
                          clientSocket: seq<Answer>, backendSocket: seq<Answer>, parserRepaired: bool)
      returns (pair: ProxyHandler)
      requires IsAddress(clientIp) && (answer.Connected? ==> IsAddress(answer.ip))
      ensures PairOk(pair) && Reading(pair)
      ensures IsNewPair(pair, clientFd, clientIp, answer, parserRepaired)
      ensures pair.client.answers == clientSocket && forall h :: h in pair.Ends() ==> h.pieces == []
      ensures pair.backend.Normal? ==> pair.backend.handler.answers == backendSocket
      ensures fresh(pair) && fresh(pair.Ends())
    {
      hide PairOk, IsAddress, NormalConnHandler.WriterOk;
      var client := new NormalConnHandler(Side(true, clientIp, parserRepaired), clientFd, clientSocket);
      var backend;
      match answer {
        case Connected(fd, ip) =>
          var h := new NormalConnHandler(Side(false, ip, parserRepaired), fd, backendSocket);
          backend := Normal(h);
        case NoneAvailable => backend := FailedBackend;
        case StaticRoot => backend := StaticFiles;
      }
      pair := new ProxyHandler(client, backend);
      pair.InitLink();
      NewPairOk(pair);
    }

    /** Two new connections, linked, promise what every pair promises. */
    static lemma NewPairOk(p: ProxyHandler)
      requires p.Paired() && forall h :: h in p.Ends() ==> Unused(h)
      ensures PairOk(p) && Reading(p)
    {
      hide EndOk, Accounts, Unused, Dead, NormalConnHandler.WriterOk, NormalConnHandler.ParseState;
      hide NormalConnHandler.HistoryOk;
      NothingToAccount(p.backend);
      UnusedEnd(p.client);
      if p.backend.Normal? {
        UnusedEnd(p.backend.handler);
      }
    }

    static lemma UnusedEnd(h: NormalConnHandler)
      requires Unused(h)
      ensures EndOk(h) && h.WriterOk() && h.delivered == [] && h.enqueued == [] && !Dead(h.state)
    {
      hide IsAddress, NormalConnHandler.WriterOk;
    }

    static lemma NothingToAccount(peer: Peer)
      ensures Accounts(peer, [], [], [], [])
    {
    }

    static ghost predicate Unused(h: NormalConnHandler)
      reads h
    {
      && IsAddress(h.side.ip) && h.ParseState() == START && h.pieces == [] && !h.thrown
      && h.WriterOk() && h.enqueued == [] && h.writeEvents == []
    }

    /** The lookup finds the one pair that owns the descriptor, at that end. */
    lemma OwnerIsResolved(fd: int)
      requires TablesOk() && !Stale(fd)
      ensures var t := Resolve(fd);
              && (t == Nobody <==> !OpenClient(fd) && !OpenBackend(fd))
              && (t == Nobody ==> forall p :: p in live ==> !Owns(p, fd))
              && (t != Nobody ==>
                    && t.pair in live && (t.BackendEnd? ==> t.pair.backend.Normal?) && EndAt(t).connFd == fd
                    && forall p :: p in live ==> (Owns(p, fd) <==> p == t.pair))
    {
    }

    lemma TwoDescriptors(p: ProxyHandler)
      requires TablesOk() && p in live
      ensures !HasBackend(p, p.client.connFd)
    {
    }

    /** The connections of the pair that owns a descriptor. */
    ghost function Owned(fd: int): set<NormalConnHandler>
      reads `live
    {
      set p, h | p in live && Owns(p, fd) && h in p.Ends() :: h
    }

    /** process_read_event, on the connection that was found: every other pair is untouched, and what waits
        to be sent stays where it is. */
    method ProcessReadEvent(target: Target, arrivals: seq<string>, end: ReadEnd) returns (failed: bool, dead: bool)
      requires AllPairsOk() && !halted && target != Nobody && target.pair in live
      requires target.BackendEnd? ==> target.pair.backend.Normal?
      modifies target.pair.Ends()
      ensures TablesOk() && !(failed && dead)
      ensures forall q :: q in live && (failed ==> q != target.pair) ==> PairOk(q)
      ensures !dead ==> forall q :: q in live ==> Reading(q)
      ensures NotWritten(target.pair, EndAt(target).connFd)
      ensures WasRead(target.pair, EndAt(target), arrivals, end)
      ensures failed == (end != WouldBlock) && dead == Dead(EndAt(target).state)
    {
      hide PairOk, Reading, MapsOk, NotWritten, WasRead, HasBackend;
      TwoDescriptors(target.pair);
      forall q | q in live && q != target.pair ensures q.Ends() !! target.pair.Ends() {
        PairsAreDisjoint(q, target.pair);
      }
      if target.ClientEnd? {
        failed, dead := ReadClient(target.pair, arrivals, end);
      } else {
        failed, dead := ReadBackend(target.pair, arrivals, end);
      }
    }

    /** process_write_event, on the connection that was found: every other pair is untouched. */
    method ProcessWriteEvent(target: Target) returns (failed: bool)
      requires AllPairsOk() && !halted && target != Nobody && target.pair in live
      requires target.BackendEnd? ==> target.pair.backend.Normal?
      modifies target.pair.Ends()
      ensures TablesOk() && forall q :: q in live ==> PairOk(q) && Reading(q)
      ensures WasWritten(target.pair, EndAt(target)) && failed == old(EndAt(target).Out()).Send().1.Broken?
    {
      hide PairOk, Reading, MapsOk, WasWritten;
      forall q | q in live && q != target.pair ensures q.Ends() !! target.pair.Ends() {
        PairsAreDisjoint(q, target.pair);
      }
      failed := WriteEnd(target);
    }

    /** What an event does to the end it is for, and whether the process survives it: a readable end is read, a
        writable one that is not readable is written. */
    static twostate predicate Served(t: Target, event: Event, arrivals: seq<string>, end: ReadEnd, halts: bool)
      requires t != Nobody
      reads t.pair.Ends()
    {
      && (t.BackendEnd? ==> t.pair.backend.Normal?)
      && if event.readable then
           WasRead(t.pair, EndAt(t), arrivals, end) && halts == (end == WouldBlock && Dead(EndAt(t).state))
         else WasWritten(t.pair, EndAt(t)) && !halts
    }

    /** Whether it ends the pair: the bytes came with the end of the connection, or a write failed. */
    static twostate predicate Ended(t: Target, event: Event, end: ReadEnd)
      requires t != Nobody
    {
      if event.readable then end != WouldBlock
      else (t.BackendEnd? ==> t.pair.backend.Normal?) && old(EndAt(t).Out()).Send().1.Broken?
    }

    /** The process halts, or goes on. */
    method Halt(dead: bool)
      requires TablesOk() && !halted && forall q :: q in live ==> PairOk(q) && (dead || Reading(q))
      modifies this`halted
      ensures halted == dead && AllPairsOk()
    {
      hide Mapped, PairOk, Reading, ProxyHandler.Paired;
      halted := dead;
      forall q | q in live ensures PairOk(q) && (dead || Reading(q)) && q.Paired() {
        PairUntouched(q);
      }
    }

    /** The disconnect after a failure; the other pairs are untouched. */
    method Close(fd: int, ghost kept: set<ProxyHandler>)
      requires TablesOk() && !halted && !Stale(fd)
      requires kept <= live && forall q :: q in live && q !in kept ==> Owns(q, fd)
      requires forall q :: q in kept ==> PairOk(q) && Reading(q)
      modifies this
      ensures AllPairsOk() && !halted
      ensures live == old(live) - (set p | p in old(live) && Owns(p, fd))
      ensures old(Resolve(fd)) == Nobody ==>
                clientToBackend == old(clientToBackend) && backendToClient == old(backendToClient)
      ensures forall k :: Dangling(k) <==> old(Dangling(k)) || (!tablesRepaired && LosesClient(old(live), fd, k))
    {
      hide PairOk, Reading;
      Disconnect(fd);
      forall q | q in kept ensures PairOk(q) && Reading(q) {
        PairUntouched(q);
      }
    }

    /** No table entry is lost, and none is left dangling but by closing the client's end `fd`. */
    twostate predicate EntriesKept(fd: int)
      reads this
    {
      forall k ::
        && (old(Dangling(k)) ==> Dangling(k))
        && (Dangling(k) ==> old(Dangling(k)) || (!tablesRepaired && LosesClient(old(live), fd, k)))
    }

    /** The read event of the pair that was found, and the disconnect when it fails. */
    method AttendRead(target: Target, event: Event, arrivals: seq<string>, end: ReadEnd)
      requires AllPairsOk() && !halted && !Stale(event.fd) && event.readable
      requires target == Resolve(event.fd) != Nobody
      modifies this, Owned(event.fd)
      ensures AllPairsOk() && EntriesKept(event.fd)
      ensures Served(target, event, arrivals, end, halted)
      ensures live == old(live) - if Ended(target, event, end) then {target.pair} else {}
      ensures NotWritten(target.pair, event.fd)
    {
      hide PairOk, Reading, Dangling, LosesClient, MapsOk, NotWritten, WasRead, HasBackend, Owns, Resolve;
      OwnerIsResolved(event.fd);
      var failed, dead := ProcessReadEvent(target, arrivals, end);
      if failed {
        Close(event.fd, set q | q in live && q != target.pair);
      } else {
        Halt(dead);
      }
    }

    /** The write event of the pair that was found, and the disconnect when it fails. */
    method AttendWrite(target: Target, event: Event, arrivals: seq<string>, end: ReadEnd)
      requires AllPairsOk() && !halted && !Stale(event.fd) && !event.readable
      requires target == Resolve(event.fd) != Nobody
      modifies this, Owned(event.fd)
      ensures AllPairsOk() && EntriesKept(event.fd)
      ensures Served(target, event, arrivals, end, halted)
      ensures live == old(live) - if Ended(target, event, end) then {target.pair} else {}
    {
      hide PairOk, Reading, Dangling, LosesClient, MapsOk, WasWritten, HasBackend, Owns, Resolve;
      OwnerIsResolved(event.fd);
      var failed := ProcessWriteEvent(target);
      if failed {
        Close(event.fd, set q | q in live && q != target.pair);
      }
    }

    /** The effect of an event. On a descriptor that is not open, or with nothing to do, nothing changes; on an
        open one its end is served, and its pair goes exactly when that ends it. */
    twostate predicate HadEffect(event: Event, arrivals: seq<string>, end: ReadEnd)
      reads *
    {
      var t := old(Resolve(event.fd));
      if t == Nobody || (!event.readable && !event.writable) then
        && live == old(live) && !halted
        && clientToBackend == old(clientToBackend) && backendToClient == old(backendToClient)
        && forall p, h :: p in live && h in p.Ends() ==> unchanged(h)
      else
        && Served(t, event, arrivals, end, halted)
        && live == old(live) - if Ended(t, event, end) then {t.pair} else {}
    }

    /** One event of process_events: the table lookup, the handler, and the disconnect when it fails. An
        event that is both readable and writable is only read: bytes that wait for their turn stay where they
        are. Every pair that lives on keeps everything its parsers, its queues and its accounts promise. */
    method ProcessEvent(event: Event, arrivals: seq<string>, end: ReadEnd)
      requires AllPairsOk() && !halted && !Stale(event.fd)
      modifies this, Owned(event.fd)
      ensures AllPairsOk() && EntriesKept(event.fd)
      ensures HadEffect(event, arrivals, end)
      ensures event.readable ==> forall p :: p in old(live) && Owns(p, event.fd) ==> NotWritten(p, event.fd)
    {
      hide PairOk, Reading, Dangling, LosesClient, MapsOk, NotWritten, HasBackend, Owns, Served, Ended;
      if !event.readable && !event.writable {
        return;
      }
      OwnerIsResolved(event.fd);
      var target := Resolve(event.fd);
      if target != Nobody {
        if event.readable {
          AttendRead(target, event, arrivals, end);
        } else {
          AttendWrite(target, event, arrivals, end);
        }
      } else {
        Close(event.fd, live);
      }
    }

    /** Descriptors of this pair would be handed out again. */
    static ghost predicate Clashes(p: ProxyHandler, action: Action)
      requires action.Arrival?
    {
      Owns(p, action.fd) || (action.answer.Connected? && Owns(p, action.answer.fd))
    }

    static ghost predicate MadeBy(p: ProxyHandler, action: Action, parserRepaired: bool) {
      && action.Arrival? && IsNewPair(p, action.fd, action.ip, action.answer, parserRepaired)
      && p.client.answers == action.clientSocket
      && (p.backend.Normal? ==> p.backend.handler.answers == action.backendSocket)
    }

    static ghost predicate EndsPair(p: ProxyHandler, action: Action) {
      action.Happening? && Owns(p, action.event.fd) && action.Ends(action.event.fd)
    }

    static ghost predicate MayEndPair(p: ProxyHandler, action: Action) {
      action.Happening? && Owns(p, action.event.fd) && action.MayEnd(action.event.fd)
    }

    /** An event at which the code as written follows the address of a destroyed pair. */
    predicate AtStale(action: Action)
      reads this
    {
      action.Happening? && Stale(action.event.fd)
    }

    /** An event leaves the connections of other pairs alone. */
    lemma OthersAreNotOwned(fd: int, p: ProxyHandler)
      requires TablesOk() && !Stale(fd) && p in live && !Owns(p, fd)
      ensures p.Ends() !! Owned(fd)
    {
      OwnerIsResolved(fd);
      hide Mapped, ProxyHandler.Paired;
      var t := Resolve(fd);
      if t != Nobody {
        PairsAreDisjoint(p, t.pair);
      }
    }

    ghost function StatusOf(p: ProxyHandler): Status
      reads `live, p.Ends()
    {
      if p !in live then Gone
      else There(p.client.pieces, if p.backend.Normal? then p.backend.handler.pieces else [])
    }

    /** The event's pair, as the lookup finds it. */
    predicate OwnedBy(p: ProxyHandler, fd: int)
      reads this
    {
      var t := Resolve(fd);
      && t != Nobody && t.pair == p && (t.BackendEnd? ==> p.backend.Normal?) && EndAt(t).connFd == fd
      && (p.backend.Normal? ==> p.backend.handler.connFd != p.client.connFd)
    }

    lemma OwnerIsFound(fd: int)
      requires TablesOk() && !Stale(fd)
      ensures forall p :: p in live && Owns(p, fd) ==> OwnedBy(p, fd)
    {
      OwnerIsResolved(fd);
      forall p | p in live ensures !HasBackend(p, p.client.connFd) {
        TwoDescriptors(p);
      }
      hide Mapped;
    }

    /** What an action does to a pair: each end that it brings something has parsed that too, unless it ends
        the pair. */
    static ghost predicate Next(p: ProxyHandler, before: Status, action: Action, after: Status) {
      match before
      case Gone => after.Gone?
      case There(client, backend) =>
        if after.Gone? then MayEndPair(p, action)
        else
          && !EndsPair(p, action) && after.client == client + action.Reads(p.client.connFd)
          && (p.backend.Normal? ==> after.backend == backend + action.Reads(p.backend.handler.connFd))
    }

    /** The pair that an event is for. */
    twostate lemma OwnerReads(p: ProxyHandler, new event: Event, new arrivals: seq<string>, new end: ReadEnd)
      requires HadEffect(event, arrivals, end) && old(OwnedBy(p, event.fd)) && p in old(live)
      ensures Next(p, old(StatusOf(p)), Happening(event, arrivals, end), StatusOf(p))
    {
      assert p.client in p.Ends() && (p.backend.Normal? ==> p.backend.handler in p.Ends());
    }

    /** No other pair goes, and none joins. */
    twostate lemma OthersStay(new event: Event, new arrivals: seq<string>, new end: ReadEnd)
      requires HadEffect(event, arrivals, end)
      ensures live <= old(live)
      ensures forall p :: p in old(live) && p !in live ==> old(Resolve(event.fd)) in {ClientEnd(p), BackendEnd(p)}
    {
    }

    twostate lemma SameStatus(p: ProxyHandler)
      requires (p in live <==> p in old(live)) && forall h :: h in p.Ends() ==> unchanged(h)
      ensures StatusOf(p) == old(StatusOf(p))
    {
      assert p.client in p.Ends() && (p.backend.Normal? ==> p.backend.handler in p.Ends());
    }

    /** An action that is for another pair. */
    static lemma NothingRead(p: ProxyHandler, status: Status, action: Action)
      requires action.Happening? ==> !Owns(p, action.event.fd)
      ensures Next(p, status, action, status)
    {
    }

    /** An event, and what the pairs have read at it. */
    method TurnEvent(event: Event, arrivals: seq<string>, end: ReadEnd)
      requires AllPairsOk() && !halted && !Stale(event.fd)
      modifies this, Owned(event.fd)
      ensures AllPairsOk() && live <= old(live)
      ensures forall p :: p in old(live) ==>
                Next(p, old(StatusOf(p)), Happening(event, arrivals, end), StatusOf(p))
    {
      hide PairOk, Reading, MapsOk, HadEffect, Owned, EntriesKept, NotWritten, OwnedBy, Owns, StatusOf, Next;
      ghost var before := live;
      forall p | p in live && !Owns(p, event.fd) ensures p.Ends() !! Owned(event.fd) {
        OthersAreNotOwned(event.fd, p);
      }
      OwnerIsResolved(event.fd);
      OwnerIsFound(event.fd);
      ProcessEvent(event, arrivals, end);
      OthersStay(event, arrivals, end);
      forall p | p in before ensures Next(p, old(StatusOf(p)), Happening(event, arrivals, end), StatusOf(p)) {
        if Owns(p, event.fd) {
          OwnerReads(p, event, arrivals, end);
        } else {
          SameStatus(p);
          NothingRead(p, StatusOf(p), Happening(event, arrivals, end));
        }
      }
    }

    /** One turn of worker_loop: a new client, if the kernel can hand out such descriptors, or an event. */
    method Turn(action: Action) returns (pair: Option<ProxyHandler>)
      requires AllPairsOk() && !halted && !AtStale(action)
      modifies this, if action.Happening? then Owned(action.event.fd) else {}
      ensures AllPairsOk()
      ensures forall p :: p in old(live) ==> Next(p, old(StatusOf(p)), action, StatusOf(p))
      ensures pair.Some? <==> action.Arrival? && old(Grants(action.fd, action.ip, action.answer))
      ensures pair.Some? ==>
                && fresh(pair.value) && fresh(pair.value.Ends()) && live == old(live) + {pair.value}
                && MadeBy(pair.value, action, parserRepaired)
                && forall h :: h in pair.value.Ends() ==> h.pieces == []
      ensures pair == None ==> live <= old(live)
    {
      hide PairOk, Reading, MapsOk, Grants, IsNewPair, Owned, StatusOf, Next;
      pair := None;
      ghost var before := live;
      match action {
        case Arrival(fd, ip, answer, clientSocket, backendSocket) =>
          if Grants(fd, ip, answer) {
            var p := AcceptNewConn(fd, ip, answer, clientSocket, backendSocket);
            pair := Some(p);
          }
          forall p | p in before ensures Next(p, old(StatusOf(p)), action, StatusOf(p)) {
            SameStatus(p);
            NothingRead(p, StatusOf(p), action);
          }
        case Happening(event, arrivals, end) =>
          TurnEvent(event, arrivals, end);
      }
    }

    /** What has become of the pair made by action `i`: it is there, its ends have read all that the actions
        since have brought them, and none of these has ended it; or one of them may have. */
    static ghost predicate PairRun(p: ProxyHandler, status: Status, actions: seq<Action>, i: nat, n: nat)
      requires i < n <= |actions|
    {
      match status
      case Gone => exists j :: i < j < n && MayEndPair(p, actions[j])
      case There(client, backend) =>
        && client == AllReads(actions, i + 1, n, p.client.connFd)
        && (p.backend.Normal? ==> backend == AllReads(actions, i + 1, n, p.backend.handler.connFd))
        && forall j :: i < j < n ==> !EndsPair(p, actions[j])
    }

    /** The descriptors of a client that could have been given these, but was not, belonged to another. */
    static ghost predicate NotGiven(actions: seq<Action>, pairs: seq<Option<ProxyHandler>>, i: nat)
      requires i < |actions| && i <= |pairs|
    {
      actions[i].Possible() ==> exists k :: 0 <= k < i && pairs[k].Some? && Clashes(pairs[k].value, actions[i])
    }

    /** A run up to its `n`-th action, with the pair that each action made. */
    ghost predicate RunOk(actions: seq<Action>, pairs: seq<Option<ProxyHandler>>, n: nat)
      reads *
    {
      && |pairs| == n <= |actions|
      && (forall p :: p in live ==> Some(p) in pairs)
      && forall i :: 0 <= i < n ==>
           match pairs[i]
           case Some(p) => MadeBy(p, actions[i], parserRepaired) && PairRun(p, StatusOf(p), actions, i, n)
           case None => NotGiven(actions, pairs, i)
    }

    /** One more action. */
    static lemma PairRunsOn(p: ProxyHandler, before: Status, after: Status, actions: seq<Action>, i: nat, n: nat)
      requires i < n < |actions| && PairRun(p, before, actions, i, n) && Next(p, before, actions[n], after)
      ensures PairRun(p, after, actions, i, n + 1)
    {
      hide EndsPair, MayEndPair;
    }

    static lemma NewPairRuns(p: ProxyHandler, actions: seq<Action>, n: nat)
      requires n < |actions|
      ensures PairRun(p, There([], []), actions, n, n + 1)
    {
    }

    /** An event on a stale entry, which is passed over, is for no live pair. */
    lemma StaleIsNobodys(fd: int)
      requires TablesOk() && Stale(fd)
      ensures forall p :: p in live ==> !Owns(p, fd)
    {
      hide Mapped;
      ResolveIsRight(fd);
    }

    /** No pair is made, when the descriptors are not free. */
    lemma NotGranted(actions: seq<Action>, pairs: seq<Option<ProxyHandler>>, n: nat)
      requires n < |actions| && |pairs| == n && forall p :: p in live ==> Some(p) in pairs
      requires actions[n].Arrival? ==> !Grants(actions[n].fd, actions[n].ip, actions[n].answer)
      ensures NotGiven(actions, pairs, n)
    {
      if actions[n].Possible() {
        assert exists p :: p in live && Clashes(p, actions[n]);
        var p :| p in live && Clashes(p, actions[n]);
        assert Some(p) in pairs;
      }
    }

    lemma NotGivenStill(actions: seq<Action>, pairs: seq<Option<ProxyHandler>>, i: nat, pair: Option<ProxyHandler>)
      requires i < |actions| && i <= |pairs| && NotGiven(actions, pairs, i)
      ensures NotGiven(actions, pairs + [pair], i)
    {
      hide Clashes;
      if actions[i].Possible() {
        var k :| 0 <= k < i && pairs[k].Some? && Clashes(pairs[k].value, actions[i]);
        assert (pairs + [pair])[k] == pairs[k];
      }
    }

    lemma RunSnoc(actions: seq<Action>, pairs: seq<Option<ProxyHandler>>, n: nat, pair: Option<ProxyHandler>)
      requires |pairs| == n < |actions|
      requires forall i :: 0 <= i < n ==>
                 if pairs[i].Some? then
                   MadeBy(pairs[i].value, actions[i], parserRepaired)
                   && PairRun(pairs[i].value, StatusOf(pairs[i].value), actions, i, n + 1)
                 else NotGiven(actions, pairs, i)
      requires if pair.Some? then
                 MadeBy(pair.value, actions[n], parserRepaired)
                 && PairRun(pair.value, StatusOf(pair.value), actions, n, n + 1)
               else NotGiven(actions, pairs, n)
      requires forall p :: p in live ==> Some(p) in pairs || Some(p) == pair
      ensures RunOk(actions, pairs + [pair], n + 1)
    {
      hide PairRun, NotGiven, StatusOf, MadeBy;
      var next := pairs + [pair];
      forall i | 0 <= i < n + 1
        ensures match next[i]
                case Some(p) =>
                  MadeBy(p, actions[i], parserRepaired) && PairRun(p, StatusOf(p), actions, i, n + 1)
                case None => NotGiven(actions, next, i)
      {
        if next[i].None? {
          NotGivenStill(actions, pairs, i, pair);
        }
      }
      assert next[n] == pair && forall i :: 0 <= i < n ==> next[i] == pairs[i];
    }

    /** The next action of a run: a turn of worker_loop, unless it is an event on a stale entry. */
    method Act(actions: seq<Action>, n: nat, ghost pairs: seq<Option<ProxyHandler>>)
      returns (stale: bool, ghost next: seq<Option<ProxyHandler>>)
      requires n < |actions| && AllPairsOk() && !halted && RunOk(actions, pairs, n)
      modifies this, if actions[n].Happening? then Owned(actions[n].event.fd) else {}
      ensures AllPairsOk() && RunOk(actions, next, n + 1)
      ensures forall p :: p in live && p !in old(live) ==> fresh(p.Ends())
      ensures stale == old(AtStale(actions[n]))
    {
      hide PairOk, Reading, MapsOk, Grants, PairRun, NotGiven, MadeBy, Owned, Next, Owns;
      var pair := None;
      stale := AtStale(actions[n]);
      if actions[n].Arrival? ==> !Grants(actions[n].fd, actions[n].ip, actions[n].answer) {
        NotGranted(actions, pairs, n);
      }
      ghost var before := live;
      if stale {
        StaleIsNobodys(actions[n].event.fd);
        forall p | p in live ensures Next(p, StatusOf(p), actions[n], StatusOf(p)) {
          NothingRead(p, StatusOf(p), actions[n]);
        }
      } else {
        pair := Turn(actions[n]);
      }
      forall i | 0 <= i < n && pairs[i].Some?
        ensures PairRun(pairs[i].value, StatusOf(pairs[i].value), actions, i, n + 1)
      {
        var p := pairs[i].value;
        if p !in before {
          GoneStays(p, actions[n]);
        }
        PairRunsOn(p, old(StatusOf(p)), StatusOf(p), actions, i, n);
      }
      if pair.Some? {
        NewPairRuns(pair.value, actions, n);
      }
      RunSnoc(actions, pairs, n, pair);
      next := pairs + [pair];
    }

    static lemma GoneStays(p: ProxyHandler, action: Action)
      ensures Next(p, Gone, action, Gone)
    {
    }

    /** worker_loop: any clients, any events, in any order, for as long as the process runs. After every
        event all tables, links, parsers, queues and accounts are in order, as written and repaired, with
        descriptors reused as soon as they are closed; every client has its pair, until its connection or
        its backend's ends; and both ends of every pair have read exactly what has arrived for them since.
        Events on a stale entry, at which the code as written follows the address of a destroyed pair, are
        counted and passed over; with the table repair there are none. */
    method WorkerLoop(actions: seq<Action>) returns (n: nat, stale: nat, ghost pairs: seq<Option<ProxyHandler>>)
      requires live == {} && !halted && TablesOk()
      modifies this
      ensures AllPairsOk() && RunOk(actions, pairs, n) && (n == |actions| || halted)
      ensures tablesRepaired ==> stale == 0
    {
      hide PairOk, Reading, MapsOk, TablesOk, Owns, PairRun, NotGiven;
      n, stale, pairs := 0, 0, [];
      while n < |actions| && !halted
        invariant AllPairsOk() && RunOk(actions, pairs, n)
        invariant forall p, h :: p in live && h in p.Ends() ==> fresh(h)
        invariant tablesRepaired ==> stale == 0
      {
        ResolveIsRight(if actions[n].Happening? then actions[n].event.fd else 0);
        var atStale;
        atStale, pairs := Act(actions, n, pairs);
        stale := stale + if atStale then 1 else 0;
        n := n + 1;
      }
    }
  }

  /** As written, a dangling entry can be hidden for a while: the kernel gives a closed backend descriptor
      to a client, whose own entry is found first, until that client's backend goes away. */
  method StaleUnmasked(ip: string) returns (hidden: bool, found: bool)
    requires IsAddress(ip)
    ensures hidden && found
  {
    hide Worker.MapsOk, Worker.PairOk, Worker.Reading, ProxyHandler.Paired, IsAddress;
    var w := new Worker(false, false);
    var first := w.AcceptNewConn(4, ip, Connected(5, ip), [], []);
    w.KeysAreOpen(4);
    w.Close(4, {});
    assert Worker.LosesClient({first}, 4, 5);
    var second := w.AcceptNewConn(5, ip, Connected(6, ip), [], []);
    w.KeysAreOpen(5);
    hidden := w.Dangling(5) && !w.Stale(5);
    w.Close(6, {});
    w.KeysAreOpen(5);
    found := w.Stale(5);
  }

  /** Both ends have parsed all they were sent, the backend's queue got the valid requests, and the client's
      the refusals of the others and the responses. */
  lemma PairHistory(p: ProxyHandler)
    requires Worker.PairOk(p) && p.backend.Normal?
    ensures var b := p.backend.handler;
            && p.client.side.isRequest && IsAddress(p.client.side.ip) && p.client.WriterOk() && b.WriterOk()
            && p.client.ParseState() == Feed(p.client.side, START, p.client.pieces)
            && b.ParseState() == Feed(b.side, START, b.pieces)
            && b.enqueued == Queued(p.client.ParseState().delivered)
            && IsMerge(Refused(p.client.ParseState().delivered), AcceptedAll(b.ParseState().delivered),
                       p.client.enqueued)
  {
    hide Valid, Feed, IsAddress, Queued, IsMerge, Refused, AcceptedAll, NormalConnHandler.WriterOk;
    assert p.client.rev == p.backend && p.backend.handler.rev == Normal(p.client);
    assert Worker.EndOk(p.client) && Worker.EndOk(p.backend.handler);
  }

  /** Every request that a live pair has ever queued for its backend names the address of its client. */
  lemma QueuedNamesClient(p: ProxyHandler)
    requires Worker.PairOk(p) && p.backend.Normal?
    ensures var sent, ip := p.backend.handler.enqueued, p.client.side.ip;
            forall i :: 0 <= i < |sent| ==> Names(sent[i].header, ip)
  {
    hide Names, Feed, IsAddress, Queued, Refused, AcceptedAll, IsMerge, Worker.PairOk, NormalConnHandler.WriterOk;
    PairHistory(p);
    DeliveredNamesClient(p.client.side, START, p.client.pieces);
    QueuedIn(p.client.ParseState().delivered);
  }

  /** What has been queued on a connection is all on its wire, if its socket takes all it is offered. */
  ghost predicate SentUnlessHeld(h: NormalConnHandler, socket: seq<Answer>)
    reads h
  {
    Accepts(socket, h.enqueued) && |socket| >= 2 * |h.enqueued| ==> h.wire == Flat(h.enqueued)
  }

  /** The messages in these reads of a connection of a worker. */
  ghost function Read(isRequest: bool, ip: string, repaired: bool, pieces: seq<string>): seq<HttpContext> {
    Feed(Side(isRequest, ip, repaired), START, pieces).delivered
  }

  /** A worker relays, in any run, for every client whose connection and whose backend's are still there. The
      backend that was chosen for it has been given exactly the valid requests that have arrived from it since,
      in order, each naming the address of this client; the client has been given the refusals of the others
      and the responses that have arrived from that backend, each in their order; and what a socket that takes
      all it is offered has been given is on its wire. */
  lemma RelayedInRun(w: Worker, actions: seq<Action>, pairs: seq<Option<ProxyHandler>>, n: nat, i: nat)
    requires w.AllPairsOk() && w.RunOk(actions, pairs, n)
    requires i < n && pairs[i].Some? && pairs[i].value in w.live && actions[i].Arrival? && actions[i].answer.Connected?
    ensures pairs[i].value.backend.Normal?
    ensures var a, client, backend := actions[i], pairs[i].value.client, pairs[i].value.backend.handler;
            var requests := Read(true, a.ip, w.parserRepaired, AllReads(actions, i + 1, n, a.fd));
            var responses := Read(false, a.answer.ip, w.parserRepaired, AllReads(actions, i + 1, n, a.answer.fd));
            && backend.enqueued == Queued(requests)
            && (forall k :: 0 <= k < |backend.enqueued| ==> Names(backend.enqueued[k].header, a.ip))
            && IsMerge(Refused(requests), AcceptedAll(responses), client.enqueued)
            && SentUnlessHeld(backend, a.backendSocket) && SentUnlessHeld(client, a.clientSocket)
  {
    var p := pairs[i].value;
    assert Worker.PairRun(p, w.StatusOf(p), actions, i, n);
    hide AllReads, Queued, Feed, Names, Accepts, Flat, IsAddress, IsMerge, Refused, AcceptedAll;
    hide Worker.PairOk, Worker.MapsOk, NormalConnHandler.WriterOk, ProxyHandler.Paired;
    PairHistory(p);
    QueuedNamesClient(p);
    if Accepts(p.client.answers, p.client.enqueued) && |p.client.answers| >= 2 * |p.client.enqueued| {
      NothingIsHeldBack(p.client);
    }
    var b := p.backend.handler;
    if Accepts(b.answers, b.enqueued) && |b.answers| >= 2 * |b.enqueued| {
      NothingIsHeldBack(b);
    }
  }
}
