/**
 The server's table of clients: the accepting thread, one handler thread per client, and the two
 clean-ups, one at the end of `run` and one in the destructor, as steps of one shared state. A step is
 what one thread does under the table's mutex, or one call of `accept`.
 */
module ClientTable {
  import opened Wrappers

  /** A connection. The operating system may use a socket number again once it is closed, so each
      connection also has an identity of its own: its place in the order of acceptance. */
  datatype Client = Client(conn: nat, socket: nat)

  // ---------------------------------------------------------------- the table

  /** What the mutex protects, with a record of the calls of `closesocket`. */
  datatype Table = Table(clients: seq<Client>, listenOpen: bool, closed: seq<Client>, listenClosings: nat)

  /** `find_if`: the first client with this socket, or the end. */
  function Find(clients: seq<Client>, socket: nat): (i: nat)
    ensures i <= |clients|
    ensures forall j :: 0 <= j < i ==> clients[j].socket != socket
    ensures i < |clients| ==> clients[i].socket == socket
  {
    if clients == [] || clients[0].socket == socket then 0 else 1 + Find(clients[1..], socket)
  }

  function Without(clients: seq<Client>, i: nat): seq<Client>
    requires i < |clients|
  {
    clients[..i] + clients[i + 1..]
  }

  function Added(t: Table, c: Client): Table { t.(clients := t.clients + [c]) }

  function Removed(t: Table, socket: nat): Table {
    var i := Find(t.clients, socket);
    if i < |t.clients| then t.(clients := Without(t.clients, i), closed := t.closed + [t.clients[i]]) else t
  }

  function CleanedUp(t: Table): Table {
    Table([], false, t.closed + t.clients, if t.listenOpen then t.listenClosings + 1 else t.listenClosings)
  }

  class Server {
    var clients: seq<Client>
    var listenOpen: bool
    var closed: seq<Client>
    var listenClosings: nat

    function State(): Table
      reads this
    {
      Table(clients, listenOpen, closed, listenClosings)
    }

    constructor ()
      ensures State() == Table([], true, [], 0)
    {
      clients, listenOpen, closed, listenClosings := [], true, [], 0;
    }

    /** The critical section of `acceptClients`. */
    method AddClient(c: Client)
      modifies this
      ensures State() == Added(old(State()), c)
    {
      clients := clients + [c];
    }

    method RemoveClient(socket: nat)
      modifies this
      ensures State() == Removed(old(State()), socket)
    {
      var i := 0;
      while i < |clients| && clients[i].socket != socket
        invariant i <= |clients|
        invariant Find(clients, socket) == i + Find(clients[i..], socket)
        invariant State() == old(State())
      {
        i := i + 1;
      }
      if i < |clients| {
        closed := closed + [clients[i]];
        clients := clients[..i] + clients[i + 1..];
      }
    }

    method CleanupSockets()
      modifies this
      ensures State() == CleanedUp(old(State()))
    {
      var i := 0;
      while i < |clients|
        invariant i <= |clients| && closed == old(closed) + clients[..i]
        invariant State() == old(State()).(closed := closed)
      {
        closed := closed + [clients[i]];
        i := i + 1;
      }
      clients := [];
      if listenOpen {
        listenClosings := listenClosings + 1;
        listenOpen := false;
      }
    }
  }

  // ---------------------------------------------------------------- the threads

  datatype Phase = AtInput | Cleaned | Joined | Destroyed

  /** What a handler holds of its client: a reference to a slot of the table's storage, not to the client.
      `epoch` says which storage; `shifts` records how often an entry below its client has been erased since,
      which moved the client down. */
  datatype Reference = Reference(epoch: nat, slot: nat, shifts: nat)

  /** `pending` is a connection that `accept` has returned and that is not in the table yet; `handlers` are
      the connections whose handler thread has not finished. The vector has storage for `room` entries, and has
      moved to larger storage `epoch` times. */
  datatype State = State(table: Table, room: nat, epoch: nat, accepted: seq<Client>, pending: Option<Client>,
                         handlers: map<Client, Reference>, running: bool, accepting: bool, main: Phase)

  datatype Event =
    | Accept(socket: nat)
    /** `grown` is the room of the new storage if the vector has to move. */
    | Enter(grown: nat)
    | LeaveLoop
    /** The handler of `client` ends; `seen` is the socket number it finds behind its reference. */
    | HandlerEnds(client: Client, seen: nat)
    | StopRunning
    | Cleanup
    | Join
    | Destroy

  const INITIAL := State(Table([], true, [], 0), 0, 0, [], None, map[], true, true, AtInput)

  /** The socket belongs to a connection that is not closed. */
  predicate IsOpen(s: State, socket: nat) {
    exists c :: c in s.accepted && c.socket == socket && c !in s.table.closed
  }

  /** The references after entry `i` has been erased, if there is one. */
  function Shifted(handlers: map<Client, Reference>, clients: seq<Client>, i: nat): map<Client, Reference> {
    map h | h in handlers ::
      var r := handlers[h];
      if i < |clients| && h in clients[i + 1..] then r.(shifts := r.shifts + 1) else r
  }

  /** A step. Nothing is assumed about the socket number that a handler sees, so the results below also hold
      when its reference is no longer valid. */
  function Next(s: State, e: Event): Option<State> {
    match e
    case Accept(socket) =>
      if s.accepting && s.pending.None? && s.table.listenOpen && !IsOpen(s, socket) then
        var c := Client(|s.accepted|, socket);
        Some(s.(accepted := s.accepted + [c], pending := Some(c)))
      else None
    case Enter(grown) =>
      if s.pending.Some? && (|s.table.clients| < s.room || grown > s.room) then
        var c := s.pending.value;
        var stored := if |s.table.clients| < s.room then s else s.(room := grown, epoch := s.epoch + 1);
        var r := Reference(stored.epoch, |s.table.clients|, 0);
        Some(stored.(table := Added(s.table, c), pending := None, handlers := s.handlers[c := r]))
      else None
    case LeaveLoop =>
      if s.accepting && s.pending.None? && !s.running then Some(s.(accepting := false)) else None
    case HandlerEnds(c, seen) =>
      if c in s.handlers && s.main != Destroyed then
        var others := Shifted(s.handlers - {c}, s.table.clients, Find(s.table.clients, seen));
        Some(s.(table := Removed(s.table, seen), handlers := others))
      else None
    case StopRunning => Some(s.(running := false))
    case Cleanup =>
      if s.main == AtInput && !s.running then Some(s.(table := CleanedUp(s.table), main := Cleaned)) else None
    case Join => if s.main == Cleaned && !s.accepting then Some(s.(main := Joined)) else None
    case Destroy => if s.main == Joined then Some(s.(table := CleanedUp(s.table), main := Destroyed)) else None
  }

  datatype Run = Start | Then(before: Run, event: Event)

  function ExecFrom(s: State, r: Run): Option<State> {
    match r
    case Start => Some(s)
    case Then(before, e) => (match ExecFrom(s, before) case None => None case Some(s') => Next(s', e))
  }

  function Exec(r: Run): Option<State> { ExecFrom(INITIAL, r) }

  // ---------------------------------------------------------------- what every step keeps

  function PendingBag(pending: Option<Client>): multiset<Client> {
    match pending case None => multiset{} case Some(c) => multiset{c}
  }

  /** Every accepted connection is waiting to enter the table, in it, or closed. */
  ghost predicate Accounted(accepted: seq<Client>, pending: Option<Client>, t: Table) {
    multiset(accepted) == PendingBag(pending) + multiset(t.clients) + multiset(t.closed)
  }

  ghost predicate Numbered(accepted: seq<Client>) {
    forall i :: 0 <= i < |accepted| ==> accepted[i].conn == i
  }

  ghost predicate SocketsDiffer(clients: seq<Client>) {
    forall i, j :: 0 <= i < j < |clients| ==> clients[i].socket != clients[j].socket
  }

  /** The connection about to enter the table has a socket of its own. */
  ghost predicate PendingDiffers(pending: Option<Client>, clients: seq<Client>) {
    pending.Some? ==> forall c :: c in clients ==> c.socket != pending.value.socket
  }

  /** A client stands as many slots below its handler's reference as entries have been erased before it. */
  ghost predicate SlotsTracked(clients: seq<Client>, handlers: map<Client, Reference>) {
    forall k: nat :: k < |clients| && clients[k] in handlers ==>
      handlers[clients[k]].slot == k + handlers[clients[k]].shifts
  }

  ghost predicate PhasesAgree(s: State) {
    (s.main != AtInput ==> !s.running && !s.table.listenOpen) &&
    (s.main in {Joined, Destroyed} ==> !s.accepting) &&
    (!s.accepting ==> s.pending.None?) &&
    (s.main == Destroyed ==> s.table.clients == []) &&
    s.table.listenClosings == (if s.table.listenOpen then 0 else 1)
  }

  ghost predicate Inv(s: State) {
    Accounted(s.accepted, s.pending, s.table) && Numbered(s.accepted) && SocketsDiffer(s.table.clients) &&
    PendingDiffers(s.pending, s.table.clients) && SlotsTracked(s.table.clients, s.handlers) && PhasesAgree(s) &&
    |s.table.clients| <= s.room
  }

  lemma WithoutBag(clients: seq<Client>, i: nat)
    requires i < |clients|
    ensures multiset(clients) == multiset(Without(clients, i)) + multiset{clients[i]}
  {
    assert clients == clients[..i] + [clients[i]] + clients[i + 1..];
  }

  lemma BagsMove(a: multiset<Client>, p: multiset<Client>, t: multiset<Client>, c: multiset<Client>, x: Client)
    ensures a == p + (t + multiset{x}) + c ==> a == p + t + (c + multiset{x})
  {}

  lemma RemovalAccounted(accepted: seq<Client>, pending: Option<Client>, t: Table, socket: nat)
    requires Accounted(accepted, pending, t)
    ensures Accounted(accepted, pending, Removed(t, socket))
  {
    var i := Find(t.clients, socket);
    if i < |t.clients| {
      WithoutBag(t.clients, i);
      var x := t.clients[i];
      assert multiset(t.closed + [x]) == multiset(t.closed) + multiset{x};
      BagsMove(multiset(accepted), PendingBag(pending), multiset(Without(t.clients, i)), multiset(t.closed), x);
    }
  }

  lemma CleanupAccounted(accepted: seq<Client>, pending: Option<Client>, t: Table)
    requires Accounted(accepted, pending, t)
    ensures Accounted(accepted, pending, CleanedUp(t))
  {
    assert multiset(t.closed + t.clients) == multiset(t.closed) + multiset(t.clients);
  }

  lemma EntryAccounted(accepted: seq<Client>, c: Client, t: Table)
    requires Accounted(accepted, Some(c), t)
    ensures Accounted(accepted, None, Added(t, c))
  {
    assert multiset(t.clients + [c]) == multiset(t.clients) + multiset{c};
  }

  lemma AcceptAccounted(accepted: seq<Client>, c: Client, t: Table)
    requires Accounted(accepted, None, t)
    ensures Accounted(accepted + [c], Some(c), t)
  {
    assert multiset(accepted + [c]) == multiset(accepted) + multiset{c};
  }

  lemma InBag(accepted: seq<Client>, pending: Option<Client>, t: Table, c: Client)
    requires Accounted(accepted, pending, t)
    ensures c in accepted <==> pending == Some(c) || c in t.clients || c in t.closed
  {
    assert c in accepted <==> c in multiset(accepted);
  }

  /** Connections are numbered, so each is accepted once and has exactly one of the three places, once. */
  lemma {:induction false} AcceptedOnce(accepted: seq<Client>, c: Client)
    requires Numbered(accepted) && c in accepted
    ensures multiset(accepted)[c] == 1
  {
    var last := accepted[|accepted| - 1];
    var rest := accepted[..|accepted| - 1];
    assert accepted == rest + [last];
    if c in rest {
      AcceptedOnce(rest, c);
    } else {
      assert multiset(rest)[c] == 0;
    }
  }

  lemma {:induction false} Places(s: State, c: Client)
    requires Inv(s) && c in s.accepted
    ensures PendingBag(s.pending)[c] + multiset(s.table.clients)[c] + multiset(s.table.closed)[c] == 1
  {
    AcceptedOnce(s.accepted, c);
  }

  lemma AcceptKeeps(s: State, socket: nat)
    requires Inv(s) && Next(s, Accept(socket)).Some?
    ensures Inv(Next(s, Accept(socket)).value)
  {
    var c := Client(|s.accepted|, socket);
    AcceptAccounted(s.accepted, c, s.table);
    forall d | d in s.table.clients
      ensures d.socket != socket
    {
      InBag(s.accepted, s.pending, s.table, d);
      Places(s, d);
      assert d !in s.table.closed;
    }
  }

  lemma EnterKeeps(s: State, grown: nat)
    requires Inv(s) && Next(s, Enter(grown)).Some?
    ensures Inv(Next(s, Enter(grown)).value)
  {
    EntryAccounted(s.accepted, s.pending.value, s.table);
    EntryKeepsSlots(s.table, s.handlers, s.pending.value, Next(s, Enter(grown)).value.epoch);
  }

  lemma EntryKeepsSlots(t: Table, handlers: map<Client, Reference>, c: Client, epoch: nat)
    requires SlotsTracked(t.clients, handlers) && PendingDiffers(Some(c), t.clients)
    ensures SlotsTracked(Added(t, c).clients, handlers[c := Reference(epoch, |t.clients|, 0)])
  {
    forall k: nat | k < |t.clients|
      ensures Added(t, c).clients[k] == t.clients[k] != c
    {
      assert t.clients[k] in t.clients;
    }
  }

  lemma HandlerEndsKeeps(s: State, h: Client, seen: nat)
    requires Inv(s) && Next(s, HandlerEnds(h, seen)).Some?
    ensures Inv(Next(s, HandlerEnds(h, seen)).value)
  {
    RemovalAccounted(s.accepted, s.pending, s.table, seen);
    RemovalKeepsSocketsDifferent(s.table, seen);
    RemovalKeepsSlots(s.table, s.handlers - {h}, seen);
    var clients, i := s.table.clients, Find(s.table.clients, seen);
    if i < |clients| {
      forall c | c in Without(clients, i)
        ensures c in clients
      {}
    }
  }

  lemma RemovalKeepsSocketsDifferent(t: Table, socket: nat)
    requires SocketsDiffer(t.clients)
    ensures SocketsDiffer(Removed(t, socket).clients)
  {
    var k := Find(t.clients, socket);
    if k < |t.clients| {
      var rest := Without(t.clients, k);
      forall i, j | 0 <= i < j < |rest|
        ensures rest[i].socket != rest[j].socket
      {
        assert rest[i] == t.clients[if i < k then i else i + 1] && rest[j] == t.clients[if j < k then j else j + 1];
      }
    }
  }

  lemma RemovalKeepsSlots(t: Table, handlers: map<Client, Reference>, socket: nat)
    requires SocketsDiffer(t.clients) && SlotsTracked(t.clients, handlers)
    ensures SlotsTracked(Removed(t, socket).clients, Shifted(handlers, t.clients, Find(t.clients, socket)))
  {
    var i := Find(t.clients, socket);
    if i < |t.clients| {
      var rest, handlers' := Without(t.clients, i), Shifted(handlers, t.clients, i);
      forall k: nat | k < |rest| && rest[k] in handlers'
        ensures handlers'[rest[k]].slot == k + handlers'[rest[k]].shifts
      {
        MovedDown(t.clients, i, k);
      }
    }
  }

  lemma MovedDown(clients: seq<Client>, i: nat, k: nat)
    requires SocketsDiffer(clients) && i < |clients| && k < |clients| - 1
    ensures Without(clients, i)[k] == clients[if k < i then k else k + 1]
    ensures Without(clients, i)[k] in clients[i + 1..] <==> k >= i
  {
    if k >= i {
      assert clients[k + 1] == clients[i + 1..][k - i];
    }
  }

  lemma CleanupKeeps(s: State, e: Event)
    requires Inv(s) && e in {Cleanup, Destroy} && Next(s, e).Some?
    ensures Inv(Next(s, e).value)
  {
    CleanupAccounted(s.accepted, s.pending, s.table);
  }

  lemma StepKeepsInv(s: State, e: Event)
    requires Inv(s) && Next(s, e).Some?
    ensures Inv(Next(s, e).value)
  {
    match e
    case Accept(socket) => AcceptKeeps(s, socket);
    case Enter(grown) => EnterKeeps(s, grown);
    case HandlerEnds(h, seen) => HandlerEndsKeeps(s, h, seen);
    case Cleanup => CleanupKeeps(s, e);
    case Destroy => CleanupKeeps(s, e);
    case LeaveLoop =>
    case StopRunning =>
    case Join =>
  }

  lemma {:induction false} RunKeepsInv(s: State, r: Run)
    requires Inv(s) && ExecFrom(s, r).Some?
    ensures Inv(ExecFrom(s, r).value)
  {
    if r.Then? {
      RunKeepsInv(s, r.before);
      StepKeepsInv(ExecFrom(s, r.before).value, r.event);
    }
  }

  lemma ReachableInv(r: Run)
    requires Exec(r).Some?
    ensures Inv(Exec(r).value)
  {
    RunKeepsInv(INITIAL, r);
  }

  // ---------------------------------------------------------------- main results

  /** In every interleaving: no socket is in the table twice, and every accepted connection is in exactly
      one place, waiting, in the table or closed, so none is closed twice. */
  lemma EveryConnectionOnce(r: Run, c: Client)
    requires Exec(r).Some?
    ensures var s := Exec(r).value;
            SocketsDiffer(s.table.clients) &&
            (PendingBag(s.pending)[c] + multiset(s.table.clients)[c] + multiset(s.table.closed)[c]
             == if c in s.accepted then 1 else 0)
  {
    var s := Exec(r).value;
    ReachableInv(r);
    if c in s.accepted {
      Places(s, c);
    } else {
      InBag(s.accepted, s.pending, s.table, c);
    }
  }

  /** After `run` and the destructor every accepted connection is closed, once, and the listening socket
      has been closed once. */
  lemma NothingIsLeftOpen(r: Run)
    requires Exec(r).Some? && Exec(r).value.main == Destroyed
    ensures var s := Exec(r).value;
            s.pending.None? && s.table.clients == [] && multiset(s.table.closed) == multiset(s.accepted) &&
            !s.table.listenOpen && s.table.listenClosings == 1
  {
    ReachableInv(r);
  }

  /** Entering the table and ending at once undo each other, but for the record of the closed socket. */
  lemma RemovalUndoesEntry(s: State)
    requires Inv(s) && s.pending.Some?
    ensures var c, t := s.pending.value, s.table;
            Find(Added(t, c).clients, c.socket) == |t.clients| &&
            Removed(Added(t, c), c.socket) == t.(closed := t.closed + [c])
  {
    var c, t := s.pending.value, s.table;
    var clients, i := t.clients + [c], Find(t.clients + [c], c.socket);
    assert clients[|t.clients|] == c;
    forall j | 0 <= j < |t.clients|
      ensures clients[j].socket != c.socket
    {
      assert t.clients[j] in t.clients;
    }
    assert Without(Added(t, c).clients, |t.clients|) == t.clients;
  }

  /** The client that a handler's reference names; None when it points into storage that the vector has left, or
      behind the last entry. */
  function Named(s: State, h: Client): Option<Client>
    requires h in s.handlers
  {
    var r := s.handlers[h];
    if r.epoch == s.epoch && r.slot < |s.table.clients| then Some(s.table.clients[r.slot]) else None
  }

  /** A reference names the handler's own client if and only if the vector has not moved since that client
      entered, the client is still in it, and nothing before it has been erased since. */
  lemma WhenAReferenceIsGood(s: State, h: Client)
    requires Inv(s) && h in s.handlers
    ensures Named(s, h) == Some(h) <==>
            s.handlers[h].epoch == s.epoch && h in s.table.clients && s.handlers[h].shifts == 0
  {
    if h in s.table.clients {
      var k :| 0 <= k < |s.table.clients| && s.table.clients[k] == h;
      assert s.handlers[h].slot == k + s.handlers[h].shifts;
    }
  }

  /** A handler that ends closes the client its reference names, whether or not it is its own. */
  lemma WhatAHandlerCloses(s: State, h: Client)
    requires Inv(s) && h in s.handlers && Named(s, h).Some? && s.main != Destroyed
    ensures var found := Named(s, h).value;
            Next(s, HandlerEnds(h, found.socket)).value.table.closed == s.table.closed + [found]
  {
    var slot, clients := s.handlers[h].slot, s.table.clients;
    assert Find(clients, clients[slot].socket) == slot;
  }

  function EnterAs(r: Run, socket: nat, grown: nat): Run { Then(Then(r, Accept(socket)), Enter(grown)) }

  lemma EnterNext(s: State, r: Run, socket: nat, grown: nat)
    requires Exec(r) == Some(s) && s.accepting && s.pending.None? && s.table.listenOpen && !IsOpen(s, socket)
    requires |s.table.clients| < s.room || grown > s.room
    ensures var c, n, moves := Client(|s.accepted|, socket), |s.table.clients|, |s.table.clients| >= s.room;
            var epoch := if moves then s.epoch + 1 else s.epoch;
            Exec(EnterAs(r, socket, grown)) ==
            Some(s.(table := Added(s.table, c), accepted := s.accepted + [c], epoch := epoch,
                    room := if moves then grown else s.room, handlers := s.handlers[c := Reference(epoch, n, 0)]))
  {
    assert Exec(Then(r, Accept(socket))) == Next(s, Accept(socket));
  }

  const A := Client(0, 7)
  const B := Client(1, 8)
  const C := Client(2, 9)
  const D := Client(3, 10)
  const E := Client(4, 11)

  function TwoEntries(): Run { EnterAs(EnterAs(Start, 7, 1), 8, 2) }

  function FourEntries(): Run { EnterAs(EnterAs(TwoEntries(), 9, 4), 10, 0) }

  lemma AfterTwoEntries()
    ensures Exec(TwoEntries()) ==
            Some(State(Table([A, B], true, [], 0), 2, 2, [A, B], None,
                       map[A := Reference(1, 0, 0), B := Reference(2, 1, 0)], true, true, AtInput))
  {
    EnterNext(INITIAL, Start, 7, 1);
    var s1 := State(Table([A], true, [], 0), 1, 1, [A], None, map[A := Reference(1, 0, 0)], true, true, AtInput);
    assert [] + [A] == [A];
    assert Exec(EnterAs(Start, 7, 1)) == Some(s1);
    EnterNext(s1, EnterAs(Start, 7, 1), 8, 2);
    assert [A] + [B] == [A, B];
  }

  lemma AfterFourEntries()
    ensures Exec(FourEntries()) ==
            Some(State(Table([A, B, C, D], true, [], 0), 4, 3, [A, B, C, D], None,
                       map[A := Reference(1, 0, 0), B := Reference(2, 1, 0), C := Reference(3, 2, 0),
                           D := Reference(3, 3, 0)], true, true, AtInput))
  {
    AfterTwoEntries();
    var s2 := Exec(TwoEntries()).value;
    EnterNext(s2, TwoEntries(), 9, 4);
    assert [A, B] + [C] == [A, B, C];
    var s3 := s2.(table := Table([A, B, C], true, [], 0), room := 4, epoch := 3, accepted := [A, B, C],
                  handlers := s2.handlers[C := Reference(3, 2, 0)]);
    assert Exec(EnterAs(TwoEntries(), 9, 4)) == Some(s3);
    EnterNext(s3, EnterAs(TwoEntries(), 9, 4), 10, 0);
    assert [A, B, C] + [D] == [A, B, C, D];
  }

  /** Two clients are enough to lose a reference: when the second one enters, the vector moves, and the handler of
      the first is left with its old storage, though its client is there and nothing has been erased. */
  lemma ReferenceIsLost()
    ensures Exec(TwoEntries()).Some?
    ensures var s := Exec(TwoEntries()).value;
            A in s.handlers && A in s.table.clients && s.handlers[A].shifts == 0 && Named(s, A) == None
  {
    AfterTwoEntries();
  }

  /** The third of four clients leaves, another one enters the last slot, and that slot is the one which the
      fourth handler's reference names: it closes the new client and leaves its own open. */
  lemma HandlerClosesAnother()
    ensures var r := EnterAs(Then(FourEntries(), HandlerEnds(C, 9)), 11, 0);
            Exec(r).Some? && D in Exec(r).value.handlers && Named(Exec(r).value, D) == Some(E)
    ensures var r := Then(EnterAs(Then(FourEntries(), HandlerEnds(C, 9)), 11, 0), HandlerEnds(D, 11));
            Exec(r).Some? && Exec(r).value.table.clients == [A, B, D] && Exec(r).value.table.closed == [C, E]
  {
    AfterFourEntries();
    var r4 := Then(FourEntries(), HandlerEnds(C, 9));
    var s3 := Exec(FourEntries()).value;
    assert Exec(r4) == Next(s3, HandlerEnds(C, 9));
    ThirdLeaves(s3);
    var s4 := Exec(r4).value;
    EnterNext(s4, r4, 11, 0);
    var r5 := EnterAs(r4, 11, 0);
    var s5 := Exec(r5).value;
    assert [A, B, D] + [E] == [A, B, D, E];
    FourthClosesFifth(s5);
    assert Exec(Then(r5, HandlerEnds(D, 11))) == Next(s5, HandlerEnds(D, 11));
  }

  lemma ThirdLeaves(s: State)
    requires s.table == Table([A, B, C, D], true, [], 0) && s.main == AtInput
    requires C in s.handlers && D in s.handlers && s.handlers[D] == Reference(3, 3, 0)
    ensures var s' := Next(s, HandlerEnds(C, 9));
            s'.Some? && s'.value == s.(table := Table([A, B, D], true, [C], 0), handlers := s'.value.handlers) &&
            D in s'.value.handlers && s'.value.handlers[D] == Reference(3, 3, 1)
  {
    var clients := [A, B, C, D];
    assert clients[0] == A && clients[1] == B && clients[2] == C;
    assert Find(clients, 9) == 2 && Without(clients, 2) == [A, B, D] && clients[3..] == [D];
  }

  lemma FourthClosesFifth(s: State)
    requires s.table == Table([A, B, D, E], true, [C], 0) && s.main == AtInput && D in s.handlers
    ensures var s' := Next(s, HandlerEnds(D, 11));
            s'.Some? && s'.value.table.clients == [A, B, D] && s'.value.table.closed == [C, E]
  {
    var clients := [A, B, D, E];
    assert clients[0] == A && clients[1] == B && clients[2] == D && clients[3] == E;
    assert Find(clients, 11) == 3 && Without(clients, 3) == [A, B, D];
  }

  /** The table is empty now and has nobody waiting to enter, and no new connection can come. */
  lemma {:induction false} StaysEmpty(s: State, r: Run)
    requires Inv(s) && s.main != AtInput && s.table.clients == [] && s.pending.None? && ExecFrom(s, r).Some?
    ensures var s' := ExecFrom(s, r).value; s'.main != AtInput && s'.table.clients == [] && s'.pending.None?
  {
    if r.Then? {
      StaysEmpty(s, r.before);
      RunKeepsInv(s, r.before);
    }
  }

  /** After the first clean-up the table stays empty, whatever happens, if and only if no accepted connection
      was waiting to enter it; only the second one makes sure. */
  lemma WhenTheFirstCleanupIsEnough(s: State)
    requires Inv(s) && Next(s, Cleanup).Some?
    ensures var cleaned := Next(s, Cleanup).value;
            (forall r :: ExecFrom(cleaned, r).Some? ==> ExecFrom(cleaned, r).value.table.clients == [])
            <==> s.pending.None?
  {
    var cleaned := Next(s, Cleanup).value;
    StepKeepsInv(s, Cleanup);
    if s.pending.None? {
      forall r | ExecFrom(cleaned, r).Some?
        ensures ExecFrom(cleaned, r).value.table.clients == []
      {
        StaysEmpty(cleaned, r);
      }
    } else {
      EntersAfterwards(cleaned);
    }
  }

  lemma EntersAfterwards(s: State)
    requires s.table.clients == [] && s.pending.Some?
    ensures exists r :: ExecFrom(s, r).Some? && ExecFrom(s, r).value.table.clients != []
  {
    assert ExecFrom(s, Start) == Some(s);
    assert ExecFrom(s, Then(Start, Enter(s.room + 1))) == Next(s, Enter(s.room + 1));
  }

  /** A run in which it is not. */
  lemma FirstCleanupIsNotEnough()
    ensures var r := Then(Then(Then(Then(Start, Accept(5)), StopRunning), Cleanup), Enter(1));
            Exec(r).Some? && Exec(r).value.table.clients == [Client(0, 5)] && Exec(r).value.table.closed == []
  {
    var s1 := Next(INITIAL, Accept(5)).value;
    assert s1.pending == Some(Client(0, 5));
    assert Exec(Then(Start, Accept(5))) == Some(s1);
    assert Exec(Then(Then(Start, Accept(5)), StopRunning)) == Next(s1, StopRunning);
  }

  /** What the accepting thread still has to do once it has been told to stop. */
  function StepsToLeave(s: State): nat {
    (if s.accepting then 1 else 0) + (if s.pending.Some? then 1 else 0)
  }

  /** After the first clean-up no connection is accepted any more and the accepting thread is at most two
      steps from its end, so `join` returns; no other thread can delay it. */
  lemma JoinIsReached(s: State, e: Event)
    requires Inv(s) && s.main == Cleaned
    ensures Next(s, e).Some? ==> StepsToLeave(Next(s, e).value) <= StepsToLeave(s)
    ensures StepsToLeave(s) > 0 ==>
              (Next(s, Enter(s.room + 1)).Some? && StepsToLeave(Next(s, Enter(s.room + 1)).value) < StepsToLeave(s)) ||
              (Next(s, LeaveLoop).Some? && StepsToLeave(Next(s, LeaveLoop).value) < StepsToLeave(s))
    ensures StepsToLeave(s) == 0 ==> Next(s, Join).Some?
  {
    match e {
      case Accept(_) => assert !s.table.listenOpen;
      case _ =>
    }
  }
}
