// The state of one market's trading: the order table, the per-outcome order
// books, the traders' cash and share balances, and the market's own cash,
// open interest and collected fees. Also the share positions an order
// escrows, and the book ordering (best price first, first come first served
// at equal prices).

module Ledger {
  import opened Settlement

  /** An order's id is the hash of its defining fields (type, amount, price,
      creator, block, outcome and escrows). The model takes the hash to be
      collision-free, so the id simply is those fields; NoOrder is the zero
      id that stands for "no order". */
  datatype OrderId =
    | NoOrder
    | OrderHash(t: OrderType, amount: nat, price: nat, owner: nat, block: nat, outcome: nat,
                moneyEscrowed: nat, sharesEscrowed: nat)

  /** A resting order. The escrows are what the maker has locked against
      the part of the order not yet filled. */
  datatype Order = Order(
    t: OrderType,
    outcome: nat,
    amount: nat,
    price: nat,
    owner: nat,
    moneyEscrowed: nat,
    sharesEscrowed: nat,
    gasPrice: nat)

  /** One order book per outcome and side. */
  datatype BookKey = BookKey(outcome: nat, t: OrderType)

  datatype State = State(
    orders: map<OrderId, Order>,
    books: map<BookKey, seq<OrderId>>,  // best order first
    cash: map<nat, nat>,                // traders' cash, absent means 0
    shares: map<nat, seq<nat>>,         // traders' shares, one entry per outcome
    marketCash: nat,                    // collateral and escrowed cash held by the market
    openInterest: nat,
    creatorFees: nat,
    reportingFees: nat)

  datatype Error =
    | InvalidMarket
    | InvalidOrderType
    | InvalidDirection
    | InvalidOutcome
    | InvalidPrice
    | ZeroAmount
    | InsufficientCash
    | DuplicateOrder
    | OrderNotFound
    | NotOwner
    | NotTrusted
    | MarketCashShort
    | OpenInterestShort
    | MarketNotFinalized
    | WaitingPeriodNotOver

  function Empty(): State
  {
    State(map[], map[], map[], map[], 0, 0, 0, 0)
  }

  // ---------------------------------------------------------------- balances

  function Cash(s: State, a: nat): nat
  {
    if a in s.cash then s.cash[a] else 0
  }

  function Zeros(n: nat): (v: seq<nat>)
    ensures |v| == n && forall i :: 0 <= i < n ==> v[i] == 0
  {
    seq(n, i => 0)
  }

  /** A trader's share balance in every outcome. Every vector the model
      writes has one entry per outcome; anything else reads as no shares. */
  function Holdings(m: Market, s: State, a: nat): (v: seq<nat>)
    ensures |v| == m.numOutcomes
  {
    if a in s.shares && |s.shares[a]| == m.numOutcomes then s.shares[a] else Zeros(m.numOutcomes)
  }

  function SetCash(s: State, a: nat, x: nat): State
  {
    s.(cash := s.cash[a := x])
  }

  function SetHoldings(s: State, a: nat, v: seq<nat>): State
  {
    s.(shares := s.shares[a := v])
  }

  // --------------------------------------------------------------- positions

  /** The outcome's own shares (long) or one share of every other outcome
      (short). Holding both makes a complete set. */
  datatype Position = Long(outcome: nat) | Short(outcome: nat)

  /** What the maker of an order locks up in shares: a bid for an outcome is
      covered by shares of all the other outcomes, an ask by the outcome's
      own shares. */
  function Escrowed(t: OrderType, outcome: nat): Position
  {
    if t == Bid then Short(outcome) else Long(outcome)
  }

  /** What the maker of an order is after, and what its filler gives up. */
  function Wanted(t: OrderType, outcome: nat): Position
  {
    if t == Bid then Long(outcome) else Short(outcome)
  }

  function MinExcept(v: seq<nat>, k: nat, i: nat): (r: nat)
    requires i < |v| && k < |v| && (i != k || i + 1 < |v|)
    ensures forall j :: i <= j < |v| && j != k ==> r <= v[j]
    ensures exists j :: i <= j < |v| && j != k && r == v[j]
    decreases |v| - i
  {
    if i == k then MinExcept(v, k, i + 1)
    else if i + 1 == |v| || (i + 1 == k && i + 2 == |v|) then v[i]
    else
      var rest := MinExcept(v, k, i + 1);
      if v[i] <= rest then v[i] else rest
  }

  /** How many shares of the position the vector can hand over: the
      outcome's balance for a long position, the smallest balance among the
      other outcomes for a short one. */
  function Available(v: seq<nat>, p: Position): (r: nat)
    requires |v| >= 2 && p.outcome < |v|
    ensures forall j :: 0 <= j < |v| && (if p.Long? then j == p.outcome else j != p.outcome) ==> r <= v[j]
    ensures exists j :: 0 <= j < |v| && (if p.Long? then j == p.outcome else j != p.outcome) && r == v[j]
  {
    if p.Long? then v[p.outcome] else MinExcept(v, p.outcome, 0)
  }

  predicate InPosition(p: Position, j: nat)
  {
    if p.Long? then j == p.outcome else j != p.outcome
  }

  /** Adds x shares of the position. */
  function Give(v: seq<nat>, p: Position, x: nat): (w: seq<nat>)
    ensures |w| == |v|
    ensures forall j :: 0 <= j < |v| ==> w[j] == (if InPosition(p, j) then v[j] + x else v[j])
  {
    seq(|v|, j requires 0 <= j < |v| => if InPosition(p, j) then v[j] + x else v[j])
  }

  /** Removes x shares of the position; the vector must hold them. */
  function Take(v: seq<nat>, p: Position, x: nat): (w: seq<nat>)
    requires forall j :: 0 <= j < |v| && InPosition(p, j) ==> x <= v[j]
    ensures |w| == |v|
    ensures forall j :: 0 <= j < |v| ==> w[j] == (if InPosition(p, j) then v[j] - x else v[j])
  {
    seq(|v|, j requires 0 <= j < |v| => if InPosition(p, j) then v[j] - x else v[j])
  }

  /** Escrowing x shares of a position leaves x fewer of it available. */
  lemma {:induction false} AvailableTake(v: seq<nat>, p: Position, x: nat)
    requires |v| >= 2 && p.outcome < |v|
    requires forall j :: 0 <= j < |v| && InPosition(p, j) ==> x <= v[j]
    ensures Available(Take(v, p, x), p) + x == Available(v, p)
  {
    var w := Take(v, p, x);
    var a, b := Available(v, p), Available(w, p);
    var j0 :| 0 <= j0 < |v| && (if p.Long? then j0 == p.outcome else j0 != p.outcome) && a == v[j0];
    var j1 :| 0 <= j1 < |w| && (if p.Long? then j1 == p.outcome else j1 != p.outcome) && b == w[j1];
    assert Available(w, p) <= w[j0];
    assert Available(v, p) <= v[j1];
  }

  /** Giving back what was taken restores the balances. */
  lemma {:induction false} GiveTake(v: seq<nat>, p: Position, x: nat)
    requires forall j :: 0 <= j < |v| && InPosition(p, j) ==> x <= v[j]
    ensures Give(Take(v, p, x), p, x) == v
  {
    var w := Give(Take(v, p, x), p, x);
    assert forall j :: 0 <= j < |v| ==> w[j] == v[j];
  }

  /** Receiving both halves of a position pair is receiving complete sets. */
  lemma {:induction false} GiveBothHalves(v: seq<nat>, k: nat, x: nat)
    ensures Give(Give(v, Long(k), x), Short(k), x) == seq(|v|, j requires 0 <= j < |v| => v[j] + x)
  {
    var w := Give(Give(v, Long(k), x), Short(k), x);
    assert forall j :: 0 <= j < |v| ==> w[j] == v[j] + x;
  }

  // ------------------------------------------------------------------- books

  function Book(s: State, key: BookKey): seq<OrderId>
  {
    if key in s.books then s.books[key] else []
  }

  function KeyOf(id: OrderId): BookKey
    requires id.OrderHash?
  {
    BookKey(id.outcome, id.t)
  }

  function PriceOf(id: OrderId): nat
  {
    if id.OrderHash? then id.price else 0
  }

  /** a's price is strictly better than b's for a book of side t: higher
      for bids, lower for asks. */
  predicate Better(t: OrderType, a: OrderId, b: OrderId)
  {
    if t == Bid then PriceOf(a) > PriceOf(b) else PriceOf(a) < PriceOf(b)
  }

  /** Best price first: no order is strictly better than the one before it. */
  predicate Sorted(t: OrderType, b: seq<OrderId>)
    decreases |b|
  {
    |b| < 2 || (!Better(t, b[1], b[0]) && Sorted(t, b[1..]))
  }

  predicate NoDup(b: seq<OrderId>)
    decreases |b|
  {
    |b| == 0 || (b[0] !in b[1..] && NoDup(b[1..]))
  }

  /** A new order goes behind every order that is at least as good, so
      orders at one price are filled in the order they were placed. */
  function Insert(t: OrderType, b: seq<OrderId>, id: OrderId): (r: seq<OrderId>)
    ensures |r| == |b| + 1
    decreases |b|
  {
    if b == [] then [id]
    else if !Better(t, id, b[0]) then [b[0]] + Insert(t, b[1..], id)
    else [id] + b
  }

  /** Insertion adds the new id and keeps every other entry. */
  lemma {:induction false} InsertContents(t: OrderType, b: seq<OrderId>, id: OrderId)
    ensures multiset(Insert(t, b, id)) == multiset(b) + multiset{id}
    decreases |b|
  {
    if b != [] && !Better(t, id, b[0]) {
      InsertContents(t, b[1..], id);
      assert b == [b[0]] + b[1..];
    }
  }

  /** The book without any entry for id. */
  function Without(b: seq<OrderId>, id: OrderId): (r: seq<OrderId>)
    ensures |r| <= |b|
    ensures id !in r
    ensures forall x :: x in r <==> x in b && x != id
    decreases |b|
  {
    if b == [] then []
    else if b[0] == id then Without(b[1..], id)
    else [b[0]] + Without(b[1..], id)
  }

  lemma {:induction false} WithoutPresent(b: seq<OrderId>, id: OrderId)
    requires id in b
    ensures |Without(b, id)| < |b|
    decreases |b|
  {
    if b[0] != id {
      WithoutPresent(b[1..], id);
    }
  }

  lemma {:induction false} WithoutAbsent(b: seq<OrderId>, id: OrderId)
    requires id !in b
    ensures Without(b, id) == b
    decreases |b|
  {
    if b != [] {
      assert b == [b[0]] + b[1..];
      WithoutAbsent(b[1..], id);
    }
  }

  /** Dropping the best order of a book without duplicates leaves the rest
      of the book as it was. */
  lemma {:induction false} WithoutFront(b: seq<OrderId>)
    requires b != [] && NoDup(b)
    ensures Without(b, b[0]) == b[1..]
  {
    WithoutAbsent(b[1..], b[0]);
  }

  /** The position Insert chooses: after every order at least as good as the
      new one, before the first strictly worse one. */
  lemma InsertPosition(t: OrderType, b: seq<OrderId>, id: OrderId) returns (p: nat)
    requires Sorted(t, b)
    ensures p <= |b| && Insert(t, b, id)[p] == id
    ensures forall i :: 0 <= i < p ==> Insert(t, b, id)[i] == b[i]
    ensures forall i :: p < i <= |b| ==> Insert(t, b, id)[i] == b[i - 1]
    ensures forall i :: 0 <= i < p ==> !Better(t, id, b[i])
    ensures p < |b| ==> Better(t, id, b[p])
  {
    p := InsertSplit(t, b, id);
    var ins := Insert(t, b, id);
    assert ins == b[..p] + [id] + b[p..];
    forall i | p < i <= |b|
      ensures ins[i] == b[i - 1]
    {
      assert ins[i] == b[p..][i - p - 1];
    }
  }

  /** Insert puts the new id between the orders at least as good as it and
      the rest. */
  lemma {:induction false} InsertSplit(t: OrderType, b: seq<OrderId>, id: OrderId) returns (p: nat)
    requires Sorted(t, b)
    ensures p <= |b| && Insert(t, b, id) == b[..p] + [id] + b[p..]
    ensures forall i :: 0 <= i < p ==> !Better(t, id, b[i])
    ensures p < |b| ==> Better(t, id, b[p])
    decreases |b|
  {
    if b == [] {
      p := 0;
    } else if !Better(t, id, b[0]) {
      var q := InsertSplit(t, b[1..], id);
      p := q + 1;
      InsertSplitBehind(t, b, id, q);
    } else {
      p := 0;
      assert b[..0] + [id] + b[0..] == [id] + b;
    }
  }

  /** An id no better than the front goes where it goes in the rest of the
      book, one place further back. */
  lemma InsertSplitBehind(t: OrderType, b: seq<OrderId>, id: OrderId, q: nat)
    requires b != [] && !Better(t, id, b[0])
    requires var rest := b[1..];
      q <= |rest| && Insert(t, rest, id) == rest[..q] + [id] + rest[q..] &&
      (forall i :: 0 <= i < q ==> !Better(t, id, rest[i])) &&
      (q < |rest| ==> Better(t, id, rest[q]))
    ensures q + 1 <= |b| && Insert(t, b, id) == b[..q + 1] + [id] + b[q + 1..]
    ensures forall i :: 0 <= i < q + 1 ==> !Better(t, id, b[i])
    ensures q + 1 < |b| ==> Better(t, id, b[q + 1])
  {
    var rest := b[1..];
    assert Insert(t, b, id) == [b[0]] + Insert(t, rest, id);
    SplitBehind(b, id, q);
    forall i | 0 < i < q + 1
      ensures !Better(t, id, b[i])
    {
      assert b[i] == rest[i - 1];
    }
  }

  /** Putting an entry back in front of a split sequence moves the split
      one place on. */
  lemma SplitBehind(b: seq<OrderId>, id: OrderId, q: nat)
    requires 0 < |b| && q < |b|
    ensures [b[0]] + (b[1..][..q] + [id] + b[1..][q..]) == b[..q + 1] + [id] + b[q + 1..]
  {
    var head, tail := b[1..][..q], b[1..][q..];
    assert b[..q + 1] == [b[0]] + head;
    assert b[q + 1..] == tail;
  }

  /** Insertion keeps a book sorted. */
  lemma {:induction false} InsertSorted(t: OrderType, b: seq<OrderId>, id: OrderId)
    requires Sorted(t, b)
    ensures Sorted(t, Insert(t, b, id))
    decreases |b|
  {
    if b != [] && !Better(t, id, b[0]) {
      InsertSorted(t, b[1..], id);
      var r := Insert(t, b[1..], id);
      if |b| >= 2 && r[0] == b[1] {
        assert !Better(t, b[1], b[0]);
      }
    }
  }

  /** Removing orders keeps a book sorted. */
  lemma {:induction false} WithoutSorted(t: OrderType, b: seq<OrderId>, id: OrderId)
    requires Sorted(t, b)
    ensures Sorted(t, Without(b, id))
    decreases |b|
  {
    if b != [] {
      WithoutSorted(t, b[1..], id);
      if b[0] != id {
        var r := Without(b[1..], id);
        if r != [] {
          SortedHeadBest(t, b);
          assert r[0] in b[1..];
        }
      }
    }
  }

  /** In a sorted book no order is strictly better than the first. */
  lemma {:induction false} SortedHeadBest(t: OrderType, b: seq<OrderId>)
    requires Sorted(t, b) && b != []
    ensures forall x :: x in b[1..] ==> !Better(t, x, b[0])
    decreases |b|
  {
    if |b| >= 2 {
      SortedHeadBest(t, b[1..]);
      assert b[1..][1..] == b[2..];
      assert b[1..] == [b[1]] + b[2..];
    }
  }

  lemma {:induction false} InsertNoDup(t: OrderType, b: seq<OrderId>, id: OrderId)
    requires NoDup(b) && id !in b
    ensures NoDup(Insert(t, b, id))
    decreases |b|
  {
    if b != [] && !Better(t, id, b[0]) {
      InsertNoDup(t, b[1..], id);
      InsertContents(t, b[1..], id);
      assert b[0] !in multiset(Insert(t, b[1..], id));
    }
  }

  lemma {:induction false} WithoutNoDup(b: seq<OrderId>, id: OrderId)
    requires NoDup(b)
    ensures NoDup(Without(b, id))
    decreases |b|
  {
    if b != [] {
      WithoutNoDup(b[1..], id);
    }
  }

  /** Taking a new order out again restores the book. */
  lemma {:induction false} WithoutInsert(t: OrderType, b: seq<OrderId>, id: OrderId)
    requires id !in b
    ensures Without(Insert(t, b, id), id) == b
    decreases |b|
  {
    if b != [] && !Better(t, id, b[0]) {
      WithoutInsert(t, b[1..], id);
      assert b == [b[0]] + b[1..];
    } else if b != [] {
      WithoutAbsent(b, id);
    }
  }

  // --------------------------------------------------------------- invariant

  /** An order's escrow covers exactly the unfilled part of the order: the
      escrowed shares cover some of it and the escrowed cash the rest at the
      order's unit cost. The id carries the order's side, outcome and price. */
  predicate OrderOk(m: Market, id: OrderId, o: Order)
  {
    id.OrderHash? && id.t == o.t && id.outcome == o.outcome && id.price == o.price &&
    o.outcome < m.numOutcomes && ValidPrice(m, o.price) && o.amount > 0 &&
    o.sharesEscrowed <= o.amount &&
    o.moneyEscrowed == (o.amount - o.sharesEscrowed) * UnitCost(m, o.t, o.price)
  }

  /** A book holds live orders of its own outcome and side, once each, best
      price first. */
  predicate BookOk(s: State, key: BookKey, b: seq<OrderId>)
  {
    NoDup(b) && Sorted(key.t, b) &&
    forall id :: id in b ==> id in s.orders && id.OrderHash? && KeyOf(id) == key
  }

  /** Every live order is filed in the book of its outcome and side. */
  predicate Filed(s: State)
  {
    forall id :: id in s.orders ==> id.OrderHash? && id in Book(s, KeyOf(id))
  }

  /** The order table and the books agree: every order is escrowed exactly,
      every book holds exactly the live orders of its key, best first. */
  predicate Good(m: Market, s: State)
  {
    WellFormed(m) &&
    (forall id :: id in s.orders ==> OrderOk(m, id, s.orders[id])) &&
    (forall key :: key in s.books ==> BookOk(s, key, s.books[key])) &&
    Filed(s)
  }

  /** Under the invariant a book holds exactly the live orders of its key:
      each once, best price first. */
  lemma BookOfGood(m: Market, s: State, key: BookKey)
    requires Good(m, s)
    ensures BookOk(s, key, Book(s, key))
    ensures forall id :: id in s.orders && id.OrderHash? && KeyOf(id) == key ==> id in Book(s, key)
  {
  }

  /** Good depends on the order table and the books only. */
  lemma GoodFrame(m: Market, s: State, s': State)
    requires Good(m, s) && s'.orders == s.orders && s'.books == s.books
    ensures Good(m, s')
  {
    forall key | key in s'.books
      ensures BookOk(s', key, s'.books[key])
    {
      assert BookOk(s, key, s.books[key]);
    }
  }

  // ------------------------------------------------------------------ totals

  /** The sum of a map's values. */
  ghost function Total<K>(f: map<K, nat>): nat
    decreases |f.Keys|
  {
    if f == map[] then 0
    else
      var k :| k in f;
      assert (f - {k}).Keys < f.Keys;
      f[k] + Total(f - {k})
  }

  /** Any entry can be taken out of the sum first. */
  lemma {:induction false} TotalRemove<K>(f: map<K, nat>, k: K)
    requires k in f
    ensures Total(f) == f[k] + Total(f - {k})
    decreases |f.Keys|
  {
    var j :| j in f && Total(f) == f[j] + Total(f - {j});
    if j != k {
      assert (f - {j}).Keys < f.Keys && (f - {k}).Keys < f.Keys;
      TotalRemove(f - {j}, k);
      TotalRemove(f - {k}, j);
      assert f - {j} - {k} == f - {k} - {j};
    }
  }

  /** Setting an entry changes the sum by the difference. */
  lemma TotalUpdate<K>(f: map<K, nat>, k: K, x: nat)
    ensures Total(f[k := x]) + (if k in f then f[k] else 0) == Total(f) + x
  {
    TotalRemove(f[k := x], k);
    assert f[k := x] - {k} == f - {k};
    if k in f {
      TotalRemove(f, k);
    } else {
      assert f - {k} == f;
    }
  }

  /** The cash escrowed by each live order. */
  ghost function Escrows(orders: map<OrderId, Order>): map<OrderId, nat>
  {
    map id | id in orders :: orders[id].moneyEscrowed
  }

  /** The cash escrowed by all live orders together. */
  ghost function EscrowTotal(orders: map<OrderId, Order>): nat
  {
    Total(Escrows(orders))
  }

  /** What the market holds beyond the escrow of its live orders and the
      collateral of the complete sets outstanding (open interest). Every
      operation leaves it unchanged, and a new market starts at zero, so in
      every reachable state the market's cash is exactly escrow plus open
      interest. */
  ghost function Reserve(s: State): int
  {
    s.marketCash - EscrowTotal(s.orders) - s.openInterest
  }

  ghost predicate Solvent(s: State)
  {
    Reserve(s) >= 0
  }

  /** All cash there is: the traders', the market's and the fees collected. */
  ghost function Money(s: State): nat
  {
    Total(s.cash) + s.marketCash + s.creatorFees + s.reportingFees
  }

  lemma EmptyAccounts()
    ensures Reserve(Empty()) == 0 && Money(Empty()) == 0
  {
    NoOrdersNoEscrow(map[]);
  }

  lemma NoOrdersNoEscrow(orders: map<OrderId, Order>)
    requires orders == map[]
    ensures EscrowTotal(orders) == 0
  {
    assert Escrows(orders) == map[];
  }

  /** A live order's escrow is part of the total, so a solvent market holds
      at least that much cash. */
  lemma {:induction false} EscrowWithinMarketCash(s: State, id: OrderId)
    requires Solvent(s) && id in s.orders
    ensures s.orders[id].moneyEscrowed <= s.marketCash
  {
    TotalRemove(Escrows(s.orders), id);
  }

  lemma {:induction false} EscrowTotalAdd(orders: map<OrderId, Order>, id: OrderId, o: Order)
    requires id !in orders
    ensures EscrowTotal(orders[id := o]) == EscrowTotal(orders) + o.moneyEscrowed
  {
    assert Escrows(orders[id := o]) == Escrows(orders)[id := o.moneyEscrowed];
    TotalUpdate(Escrows(orders), id, o.moneyEscrowed);
  }

  lemma {:induction false} EscrowTotalRemove(orders: map<OrderId, Order>, id: OrderId)
    requires id in orders
    ensures EscrowTotal(orders - {id}) + orders[id].moneyEscrowed == EscrowTotal(orders)
  {
    assert Escrows(orders - {id}) == Escrows(orders) - {id};
    TotalRemove(Escrows(orders), id);
  }

  lemma {:induction false} EscrowTotalUpdate(orders: map<OrderId, Order>, id: OrderId, o: Order)
    requires id in orders
    ensures EscrowTotal(orders[id := o]) + orders[id].moneyEscrowed == EscrowTotal(orders) + o.moneyEscrowed
  {
    assert Escrows(orders[id := o]) == Escrows(orders)[id := o.moneyEscrowed];
    TotalUpdate(Escrows(orders), id, o.moneyEscrowed);
  }

  /** Moving d of cash from the traders into the market's escrow keeps the
      reserve and the total. */
  lemma EscrowMoved(s: State, s': State, d: nat)
    requires EscrowTotal(s'.orders) == EscrowTotal(s.orders) + d && s'.marketCash == s.marketCash + d
    requires Total(s'.cash) + d == Total(s.cash)
    requires s'.openInterest == s.openInterest && s'.creatorFees == s.creatorFees && s'.reportingFees == s.reportingFees
    ensures Reserve(s') == Reserve(s) && Money(s') == Money(s)
  {
  }

  /** Handing d of escrowed cash back to a trader keeps the reserve and the
      total. */
  lemma EscrowReleased(s: State, s': State, d: nat)
    requires EscrowTotal(s'.orders) + d == EscrowTotal(s.orders) && s'.marketCash + d == s.marketCash
    requires Total(s'.cash) == Total(s.cash) + d
    requires s'.openInterest == s.openInterest && s'.creatorFees == s.creatorFees && s'.reportingFees == s.reportingFees
    ensures Reserve(s') == Reserve(s) && Money(s') == Money(s)
  {
  }

  /** Setting a trader's cash changes the traders' total by the difference. */
  lemma SetCashTotal(s: State, a: nat, x: nat)
    ensures Total(SetCash(s, a, x).cash) + Cash(s, a) == Total(s.cash) + x
  {
    TotalUpdate(s.cash, a, x);
  }

  // ---------------------------------------------------- order table updates

  /** Records a new order and files it in its book. */
  function AddOrder(s: State, id: OrderId, o: Order): State
    requires id.OrderHash?
  {
    s.(orders := s.orders[id := o], books := s.books[KeyOf(id) := Insert(id.t, Book(s, KeyOf(id)), id)])
  }

  /** Erases an order and takes it out of its book. */
  function RemoveOrder(s: State, id: OrderId): State
    requires id.OrderHash?
  {
    s.(orders := s.orders - {id}, books := s.books[KeyOf(id) := Without(Book(s, KeyOf(id)), id)])
  }

  /** Rewrites an order's record in place; its place in the book is kept. */
  function UpdateOrder(s: State, id: OrderId, o: Order): State
  {
    s.(orders := s.orders[id := o])
  }

  lemma {:induction false} AddOrderKeepsGood(m: Market, s: State, id: OrderId, o: Order)
    requires Good(m, s) && OrderOk(m, id, o) && id !in s.orders
    ensures Good(m, AddOrder(s, id, o))
  {
    var s' := AddOrder(s, id, o);
    var key := KeyOf(id);
    var b := Book(s, key);
    BookOfGood(m, s, key);
    InsertNoDup(id.t, b, id);
    InsertSorted(id.t, b, id);
    InsertContents(id.t, b, id);
    assert forall x :: x in Insert(id.t, b, id) ==> x in multiset(b) + multiset{id};
    assert BookOk(s', key, s'.books[key]);
    forall k | k in s'.books
      ensures BookOk(s', k, s'.books[k])
    {
      if k != key {
        assert BookOk(s, k, s.books[k]);
      }
    }
    AddOrderFiled(s, id, o);
  }

  /** Filing an order keeps every live order in its book. */
  lemma AddOrderFiled(s: State, id: OrderId, o: Order)
    requires Filed(s) && id.OrderHash?
    ensures Filed(AddOrder(s, id, o))
  {
    var s' := AddOrder(s, id, o);
    var key := KeyOf(id);
    var b := Book(s, key);
    InsertContents(id.t, b, id);
    forall x | x in s'.orders
      ensures x.OrderHash? && x in Book(s', KeyOf(x))
    {
      assert x in multiset(Insert(id.t, b, id)) <==> x in multiset(b) + multiset{id};
      if x != id {
        assert x in Book(s, KeyOf(x));
      }
    }
  }

  lemma {:induction false} RemoveOrderKeepsGood(m: Market, s: State, id: OrderId)
    requires Good(m, s) && id in s.orders
    ensures id.OrderHash? && Good(m, RemoveOrder(s, id))
  {
    assert OrderOk(m, id, s.orders[id]);
    var s' := RemoveOrder(s, id);
    var key := KeyOf(id);
    var b := Book(s, key);
    BookOfGood(m, s, key);
    WithoutNoDup(b, id);
    WithoutSorted(id.t, b, id);
    assert BookOk(s', key, s'.books[key]);
    forall k | k in s'.books
      ensures BookOk(s', k, s'.books[k])
    {
      if k != key {
        assert BookOk(s, k, s.books[k]);
        assert forall x :: x in s.books[k] ==> x != id;
      }
    }
  }

  lemma {:induction false} UpdateOrderKeepsGood(m: Market, s: State, id: OrderId, o: Order)
    requires Good(m, s) && id in s.orders && OrderOk(m, id, o)
    ensures Good(m, UpdateOrder(s, id, o))
  {
    var s' := UpdateOrder(s, id, o);
    forall k | k in s'.books
      ensures BookOk(s', k, s'.books[k])
    {
      assert BookOk(s, k, s.books[k]);
    }
  }

  /** Removing an order just added restores the order table and every book. */
  lemma {:induction false} RemoveUndoesAdd(m: Market, s: State, id: OrderId, o: Order)
    requires Good(m, s) && id.OrderHash? && id !in s.orders
    ensures RemoveOrder(AddOrder(s, id, o), id).orders == s.orders
    ensures forall key :: Book(RemoveOrder(AddOrder(s, id, o), id), key) == Book(s, key)
  {
    BookOfGood(m, s, KeyOf(id));
    RemoveAfterAdd(s, id, o);
  }

  lemma RemoveAfterAdd(s: State, id: OrderId, o: Order)
    requires id.OrderHash? && id !in s.orders && id !in Book(s, KeyOf(id))
    ensures RemoveOrder(AddOrder(s, id, o), id).orders == s.orders
    ensures forall key :: Book(RemoveOrder(AddOrder(s, id, o), id), key) == Book(s, key)
  {
    var key := KeyOf(id);
    WithoutInsert(id.t, Book(s, key), id);
    var s2 := RemoveOrder(AddOrder(s, id, o), id);
    assert s2.books == s.books[key := Book(s, key)];
    assert s2.orders == s.orders;
  }

  // ----------------------------------------------------------- order record

  /** The eight fields the order table reports for an id; an absent order
      reads as all zeros. The better and worse ids are the order's
      neighbours in its book. */
  datatype OrderRecord = OrderRecord(
    amount: nat, price: nat, owner: nat, moneyEscrowed: nat, sharesEscrowed: nat,
    betterOrderId: OrderId, worseOrderId: OrderId, gasPrice: nat)

  const ZeroRecord: OrderRecord := OrderRecord(0, 0, 0, 0, 0, NoOrder, NoOrder, 0)

  function IndexOf(b: seq<OrderId>, id: OrderId): (i: nat)
    requires id in b
    ensures i < |b| && b[i] == id
    decreases |b|
  {
    if b[0] == id then 0 else 1 + IndexOf(b[1..], id)
  }

  function GetOrder(s: State, id: OrderId): (r: OrderRecord)
    ensures id !in s.orders ==> r == ZeroRecord
  {
    if id !in s.orders then ZeroRecord
    else
      var o := s.orders[id];
      var b := Book(s, BookKey(o.outcome, o.t));
      var better := if id in b && IndexOf(b, id) > 0 then b[IndexOf(b, id) - 1] else NoOrder;
      var worse := if id in b && IndexOf(b, id) + 1 < |b| then b[IndexOf(b, id) + 1] else NoOrder;
      OrderRecord(o.amount, o.price, o.owner, o.moneyEscrowed, o.sharesEscrowed, better, worse, o.gasPrice)
  }

  /** An order alone in its book has no better and no worse order. */
  lemma AloneHasNoNeighbours(s: State, id: OrderId)
    requires id in s.orders && Book(s, BookKey(s.orders[id].outcome, s.orders[id].t)) == [id]
    ensures GetOrder(s, id).betterOrderId == NoOrder && GetOrder(s, id).worseOrderId == NoOrder
  {
  }
}
