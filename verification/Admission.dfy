/** CONNECT-UDP admission (acquireConnectUDP and its release closure in native_udp_association.go). Each
    critical section is one operation; a run is any interleaving of acquires and releases. */
module Admission {
  import opened Net

  const MAX_ASSOCIATIONS := 512
  const MAX_PER_CLIENT := 128

  /** The configured limits; a non-positive one stands for the default. */
  datatype Limits = Limits(maxActive: int, maxClientActive: int)

  function ActiveLimit(l: Limits): int {
    if l.maxActive <= 0 then MAX_ASSOCIATIONS else l.maxActive
  }

  function ClientLimit(l: Limits): int {
    if l.maxClientActive <= 0 then MAX_PER_CLIENT else l.maxClientActive
  }

  /** A release closure: whose it is, and whether its once has run. */
  datatype Ticket = Ticket(client: string, released: bool)

  datatype Book = Book(active: int, byClient: map<string, int>, nextID: nat, tickets: map<nat, Ticket>)

  const EMPTY_BOOK := Book(0, map[], 0, map[])

  /** Reading a missing key of a Go map gives zero. */
  function Get(m: map<string, int>, client: string): int {
    if client in m then m[client] else 0
  }

  predicate Refused(l: Limits, b: Book, client: string) {
    b.active >= ActiveLimit(l) || Get(b.byClient, client) >= ClientLimit(l)
  }

  function Acquired(l: Limits, b: Book, client: string): Book {
    if Refused(l, b, client) then b
    else Book(b.active + 1, b.byClient[client := Get(b.byClient, client) + 1], b.nextID + 1,
              b.tickets[b.nextID + 1 := Ticket(client, false)])
  }

  function Decremented(m: map<string, int>, client: string): map<string, int> {
    if Get(m, client) - 1 == 0 then m - {client} else m[client := Get(m, client) - 1]
  }

  function Released(b: Book, id: nat): Book
    requires id in b.tickets
  {
    var t := b.tickets[id];
    if t.released then b
    else Book(b.active - 1, Decremented(b.byClient, t.client), b.nextID, b.tickets[id := t.(released := true)])
  }

  // ---------- Conservation ----------

  ghost function Held(b: Book): set<nat> {
    set id | id in b.tickets && !b.tickets[id].released
  }

  ghost function HeldBy(b: Book, client: string): set<nat> {
    set id | id in b.tickets && !b.tickets[id].released && b.tickets[id].client == client
  }

  ghost function Sum(m: map<string, int>): int {
    if m == map[] then 0
    else
      var k :| k in m;
      m[k] + Sum(m - {k})
  }

  lemma {:induction false} SumRemove(m: map<string, int>, k: string)
    requires k in m
    ensures Sum(m) == m[k] + Sum(m - {k})
    decreases |m|
  {
    var j :| j in m && Sum(m) == m[j] + Sum(m - {j});
    if j != k {
      SumRemove(m - {j}, k);
      SumRemove(m - {k}, j);
      assert m - {j} - {k} == m - {k} - {j};
    }
  }

  lemma {:induction false} SumUpdate(m: map<string, int>, k: string, v: int)
    ensures Sum(m[k := v]) == Sum(m) - Get(m, k) + v
    ensures Sum(m - {k}) == Sum(m) - Get(m, k)
  {
    SumRemove(m[k := v], k);
    assert m[k := v] - {k} == m - {k};
    if k in m { SumRemove(m, k); } else { assert m - {k} == m; }
  }

  /** The counters are exactly the unreleased tickets, within both limits; ids never exceed the last one issued. */
  ghost predicate Conserved(l: Limits, b: Book) {
    b.active == |Held(b)| && b.active == Sum(b.byClient) && b.active <= ActiveLimit(l) &&
    (forall c :: Get(b.byClient, c) == |HeldBy(b, c)|) &&
    (forall c :: c in b.byClient ==> 0 < b.byClient[c] <= ClientLimit(l)) &&
    (forall id :: id in b.tickets ==> 0 < id <= b.nextID)
  }

  lemma {:induction false} AcquireByClient(l: Limits, b: Book, client: string, c: string)
    requires !Refused(l, b, client) && b.nextID + 1 !in b.tickets && Get(b.byClient, c) == |HeldBy(b, c)|
    ensures Get(Acquired(l, b, client).byClient, c) == |HeldBy(Acquired(l, b, client), c)|
  {
    var b' := Acquired(l, b, client);
    if c == client {
      assert HeldBy(b', c) == HeldBy(b, c) + {b'.nextID};
    } else {
      assert HeldBy(b', c) == HeldBy(b, c);
    }
  }

  lemma {:induction false} AcquireConserves(l: Limits, b: Book, client: string)
    requires Conserved(l, b)
    ensures Conserved(l, Acquired(l, b, client))
  {
    var b' := Acquired(l, b, client);
    if !Refused(l, b, client) {
      SumUpdate(b.byClient, client, Get(b.byClient, client) + 1);
      assert b'.nextID !in b.tickets;
      assert Held(b') == Held(b) + {b'.nextID};
      forall c ensures Get(b'.byClient, c) == |HeldBy(b', c)| {
        AcquireByClient(l, b, client, c);
      }
    }
  }

  lemma {:induction false} ReleaseConserves(l: Limits, b: Book, id: nat)
    requires Conserved(l, b) && id in b.tickets
    ensures Conserved(l, Released(b, id))
  {
    var t, b' := b.tickets[id], Released(b, id);
    if !t.released {
      SumUpdate(b.byClient, t.client, Get(b.byClient, t.client) - 1);
      assert Held(b') == Held(b) - {id};
      assert id in HeldBy(b, t.client);
      forall c ensures Get(b'.byClient, c) == |HeldBy(b', c)| {
        assert HeldBy(b', c) == if c == t.client then HeldBy(b, c) - {id} else HeldBy(b, c);
      }
    }
  }

  // ---------- Runs ----------

  datatype Op = Acquire(client: string) | Release(id: nat)

  /** Only a ticket that was handed out can be released; it may be released again and again. */
  predicate Possible(b: Book, op: Op) {
    op.Release? ==> op.id in b.tickets
  }

  function Step(l: Limits, b: Book, op: Op): Book
    requires Possible(b, op)
  {
    match op
    case Acquire(client) => Acquired(l, b, client)
    case Release(id) => Released(b, id)
  }

  ghost predicate IsRun(l: Limits, b: Book, ops: seq<Op>, c: Book)
    decreases |ops|
  {
    if ops == [] then b == c else Possible(b, ops[0]) && IsRun(l, Step(l, b, ops[0]), ops[1..], c)
  }

  lemma EmptyBookConserved(l: Limits)
    ensures Conserved(l, EMPTY_BOOK)
  {
    assert Held(EMPTY_BOOK) == {};
    forall c ensures HeldBy(EMPTY_BOOK, c) == {} {}
  }

  /** Over any interleaving of acquires and repeated releases the active count is the number of unreleased
      tickets and the sum of the per-client map, no limit is exceeded (512 in all and 128 for each client unless
      configured), and the map holds no zero entries. */
  lemma {:induction false} RunConserves(l: Limits, b: Book, ops: seq<Op>, c: Book)
    requires Conserved(l, b) && IsRun(l, b, ops, c)
    ensures Conserved(l, c)
    ensures |Held(c)| <= (if l.maxActive <= 0 then 512 else l.maxActive)
    ensures forall client :: |HeldBy(c, client)| <= (if l.maxClientActive <= 0 then 128 else l.maxClientActive)
    ensures b.nextID <= c.nextID && b.tickets.Keys <= c.tickets.Keys
    decreases |ops|
  {
    if ops != [] {
      match ops[0] {
        case Acquire(client) => AcquireConserves(l, b, client);
        case Release(id) => ReleaseConserves(l, b, id);
      }
      RunConserves(l, Step(l, b, ops[0]), ops[1..], c);
    }
  }

  /** An acquire is refused exactly when the held tickets already fill a limit, and then changes nothing.
      Otherwise its id is larger than every id ever issued, and releasing it restores all counts. */
  lemma {:induction false} AcquireDecision(l: Limits, b: Book, client: string)
    requires Conserved(l, b)
    ensures Acquired(l, b, client) == b <==>
              |Held(b)| == (if l.maxActive <= 0 then 512 else l.maxActive) ||
              |HeldBy(b, client)| == (if l.maxClientActive <= 0 then 128 else l.maxClientActive)
    ensures Acquired(l, b, client) != b ==>
              var c := Acquired(l, b, client);
              c.nextID in c.tickets && (forall id :: id in b.tickets ==> id < c.nextID) &&
              var d := Released(c, c.nextID); d.active == b.active && d.byClient == b.byClient
  {
    if !Refused(l, b, client) {
      var c := Acquired(l, b, client);
      var d := Released(c, c.nextID);
      if client !in b.byClient {
        assert d.byClient == b.byClient[client := 1] - {client} == b.byClient;
      } else {
        assert d.byClient == b.byClient;
      }
    } else {
      assert client in b.byClient || Get(b.byClient, client) == 0;
    }
  }

  /** After any further run, releasing a ticket a second time is a no-op. */
  lemma {:induction false} SecondReleaseIsNoOp(l: Limits, b: Book, id: nat, ops: seq<Op>, c: Book)
    requires Conserved(l, b) && id in b.tickets && b.tickets[id].released && IsRun(l, b, ops, c)
    ensures id in c.tickets && Released(c, id) == c
    decreases |ops|
  {
    if ops != [] {
      match ops[0] {
        case Acquire(client) => AcquireConserves(l, b, client);
        case Release(other) => ReleaseConserves(l, b, other);
      }
      SecondReleaseIsNoOp(l, Step(l, b, ops[0]), id, ops[1..], c);
    }
  }

  // ---------- The object ----------

  class Limiter {
    const limits: Limits
    var active: int
    var byClient: map<string, int>
    var nextID: nat
    var tickets: map<nat, Ticket>

    ghost function View(): Book
      reads this
    {
      Book(active, byClient, nextID, tickets)
    }

    constructor (limits: Limits)
      ensures View() == EMPTY_BOOK && this.limits == limits
    {
      this.limits := limits;
      active, byClient, nextID, tickets := 0, map[], 0, map[];
    }

    /** None is a refusal; otherwise the id, which also names the release closure. */
    method AcquireConnectUDP(client: string) returns (id: Option<nat>)
      modifies this
      ensures View() == Acquired(limits, old(View()), client)
      ensures id == if Refused(limits, old(View()), client) then None else Some(nextID)
    {
      var maxActive := limits.maxActive;
      if maxActive <= 0 { maxActive := MAX_ASSOCIATIONS; }
      var maxClient := limits.maxClientActive;
      if maxClient <= 0 { maxClient := MAX_PER_CLIENT; }
      if active >= maxActive { return None; }
      if Get(byClient, client) >= maxClient { return None; }
      active := active + 1;
      byClient := byClient[client := Get(byClient, client) + 1];
      nextID := nextID + 1;
      tickets := tickets[nextID := Ticket(client, false)];
      return Some(nextID);
    }

    method Release(id: nat)
      requires id in tickets
      modifies this
      ensures View() == Released(old(View()), id)
    {
      if tickets[id].released { return; }
      var client := tickets[id].client;
      tickets := tickets[id := Ticket(client, true)];
      active := active - 1;
      byClient := byClient[client := Get(byClient, client) - 1];
      if byClient[client] == 0 {
        ghost var before := old(byClient);
        byClient := byClient - {client};
        assert byClient == before - {client};
      }
    }
  }
}
