/**
 Two accounts of the same fills: the simulator updates one position per instrument as each fill
 happens, the ledger nets all recorded fills when asked. Prices and quantities are reals.
 */
module Positions {
  import opened Bytes

  datatype Side = Buy | Sell

  datatype Direction = Long | Short

  datatype Fill = Fill(instrument: string, side: Side, qty: real, price: real)

  /** A fill as the ledger reads it back: without its order's row the side is unknown. */
  datatype Row = Row(instrument: string, side: Option<Side>, qty: real, price: real)

  datatype Position = Position(direction: Direction, qty: real, avgPrice: real)

  type Book = map<string, Position>

  const DUST := 0.000000001

  function Abs(x: real): real {
    if x < 0.0 then -x else x
  }

  function Signed(side: Side, qty: real): real {
    if side.Buy? then qty else -qty
  }

  function SignedQty(p: Position): real {
    if p.direction.Long? then p.qty else -p.qty
  }

  function DirectionOf(x: real): Direction {
    if x > 0.0 then Long else Short
  }

  /** Neither side holds back a fill of quantity zero, but a negative quantity is no fill. */
  predicate Fills(fills: seq<Fill>) {
    forall k :: 0 <= k < |fills| ==> fills[k].qty >= 0.0
  }

  // ---- the simulator

  function Weighted(a: real, q: real, p: real, r: real): real
    requires q + r != 0.0
  {
    (a * q + p * r) / (q + r)
  }

  /** The position after one more fill; None if it is closed. */
  function Moved(cur: Position, f: Fill): Option<Position>
    requires cur.qty >= 0.0 && f.qty >= 0.0
  {
    var newQty := SignedQty(cur) + Signed(f.side, f.qty);
    if newQty == 0.0 then None
    else if (newQty > 0.0) == cur.direction.Long? then
      assert cur.qty + f.qty > 0.0;
      Some(Position(cur.direction, Abs(newQty), Weighted(cur.avgPrice, cur.qty, f.price, f.qty)))
    else Some(Position(DirectionOf(newQty), Abs(newQty), f.price))
  }

  function Opened(f: Fill): Position {
    Position(if f.side.Buy? then Long else Short, f.qty, f.price)
  }

  predicate Valid(book: Book) {
    forall i :: i in book ==> book[i].qty >= 0.0
  }

  function Update(book: Book, f: Fill): (next: Book)
    requires Valid(book) && f.qty >= 0.0
    ensures Valid(next)
    ensures forall i :: i != f.instrument ==> (i in next <==> i in book) && (i in book ==> next[i] == book[i])
  {
    var i := f.instrument;
    if i !in book then book[i := Opened(f)]
    else
      match Moved(book[i], f)
      case None => book - {i}
      case Some(p) => book[i := p]
  }

  function Simulated(fills: seq<Fill>): (book: Book)
    requires Fills(fills)
    ensures Valid(book)
  {
    if fills == [] then map[] else Update(Simulated(fills[..|fills| - 1]), fills[|fills| - 1])
  }

  // ---- the ledger

  function RowSigned(r: Row): real {
    Signed(if r.side.Some? then r.side.value else Buy, r.qty)
  }

  function RowCost(r: Row): real {
    RowSigned(r) * r.price
  }

  function Net(rows: seq<Row>, i: string): real {
    if rows == [] then 0.0
    else
      var last := rows[|rows| - 1];
      Net(rows[..|rows| - 1], i) + if last.instrument == i then RowSigned(last) else 0.0
  }

  function Cost(rows: seq<Row>, i: string): real {
    if rows == [] then 0.0
    else
      var last := rows[|rows| - 1];
      Cost(rows[..|rows| - 1], i) + if last.instrument == i then RowCost(last) else 0.0
  }

  function Recorded(fills: seq<Fill>): (rows: seq<Row>)
    ensures |rows| == |fills|
  {
    seq(|fills|, k requires 0 <= k < |fills| =>
      Row(fills[k].instrument, Some(fills[k].side), fills[k].qty, fills[k].price))
  }

  lemma RecordedInit(fills: seq<Fill>)
    requires fills != []
    ensures var n := |fills| - 1;
      Recorded(fills)[..n] == Recorded(fills[..n])
  {
  }

  // ---- what both list

  /** The simulator's listing leaves out positions below the threshold. */
  function SimListed(book: Book): Book {
    map i | i in book && book[i].qty >= DUST :: book[i]
  }

  function Traded(rows: seq<Row>): set<string> {
    set k | 0 <= k < |rows| :: rows[k].instrument
  }

  predicate OpenIn(rows: seq<Row>, i: string) {
    Abs(Net(rows, i)) >= DUST
  }

  function Netted(rows: seq<Row>, i: string): Position
    requires OpenIn(rows, i)
  {
    Position(DirectionOf(Net(rows, i)), Abs(Net(rows, i)), Cost(rows, i) / Net(rows, i))
  }

  function LedgerListed(rows: seq<Row>): Book {
    map i | i in Traded(rows) && OpenIn(rows, i) :: Netted(rows, i)
  }

  /** The signed quantity the simulator holds. */
  function Held(book: Book, i: string): real {
    if i in book then SignedQty(book[i]) else 0.0
  }

  lemma {:induction false} HeldIsNet(fills: seq<Fill>, i: string)
    requires Fills(fills)
    ensures Held(Simulated(fills), i) == Net(Recorded(fills), i)
  {
    if fills != [] {
      var n := |fills| - 1;
      HeldIsNet(fills[..n], i);
      RecordedInit(fills);
    }
  }

  lemma {:induction false} Untraded(rows: seq<Row>, i: string)
    requires i !in Traded(rows)
    ensures Net(rows, i) == 0.0 && Cost(rows, i) == 0.0
  {
    if rows != [] {
      var n := |rows| - 1;
      assert rows[n].instrument in Traded(rows);
      assert forall k :: 0 <= k < n ==> rows[..n][k] == rows[k];
      Untraded(rows[..n], i);
    }
  }

  /**
   After any fills the two list the same instruments, each with the same side and quantity.
   */
  lemma SameSideAndQuantity(fills: seq<Fill>)
    requires Fills(fills)
    ensures var s, l := SimListed(Simulated(fills)), LedgerListed(Recorded(fills));
      && s.Keys == l.Keys
      && forall i :: i in s ==> s[i].direction == l[i].direction && s[i].qty == l[i].qty
  {
    var s, l := SimListed(Simulated(fills)), LedgerListed(Recorded(fills));
    forall i
      ensures i in s <==> i in l
      ensures i in s ==> s[i].direction == l[i].direction && s[i].qty == l[i].qty
    {
      HeldIsNet(fills, i);
      if i !in Traded(Recorded(fills)) {
        Untraded(Recorded(fills), i);
      }
    }
  }

  /** How much of an instrument has been traded on one side. */
  function Volume(fills: seq<Fill>, i: string, side: Side): real {
    if fills == [] then 0.0
    else
      var last := fills[|fills| - 1];
      Volume(fills[..|fills| - 1], i, side) + if last.instrument == i && last.side == side then last.qty else 0.0
  }

  lemma {:induction false} NetIsBoughtLessSold(fills: seq<Fill>, i: string)
    ensures Net(Recorded(fills), i) == Volume(fills, i, Buy) - Volume(fills, i, Sell)
  {
    if fills != [] {
      NetIsBoughtLessSold(fills[..|fills| - 1], i);
      RecordedInit(fills);
    }
  }

  /**
   Both list an instrument exactly if what was bought of it and what was sold differ by a billionth
   or more: with the difference as quantity, and long exactly if more was bought.
   */
  lemma ListedIff(fills: seq<Fill>, i: string)
    requires Fills(fills)
    ensures var s, l := SimListed(Simulated(fills)), LedgerListed(Recorded(fills));
      var bought, sold := Volume(fills, i, Buy), Volume(fills, i, Sell);
      && (i in s <==> i in l)
      && (i in l <==> bought - sold >= 0.000000001 || sold - bought >= 0.000000001)
      && (i in l ==> l[i].direction == s[i].direction == if bought > sold then Long else Short)
      && (i in l ==> l[i].qty == s[i].qty == if bought > sold then bought - sold else sold - bought)
  {
    SameSideAndQuantity(fills);
    NetIsBoughtLessSold(fills, i);
    if i !in Traded(Recorded(fills)) {
      Untraded(Recorded(fills), i);
    }
    hide Simulated, Recorded, Net, Volume, Traded, SimListed, Cost;
  }

  /** The rows with every unknown side taken for a purchase. */
  function Bought(rows: seq<Row>): (known: seq<Row>)
    ensures |known| == |rows|
  {
    seq(|rows|, k requires 0 <= k < |rows| => if rows[k].side.Some? then rows[k] else rows[k].(side := Some(Buy)))
  }

  lemma {:induction false} BoughtSums(rows: seq<Row>, i: string)
    ensures Net(Bought(rows), i) == Net(rows, i) && Cost(Bought(rows), i) == Cost(rows, i)
    decreases |rows|
  {
    if rows != [] {
      var n := |rows| - 1;
      assert Bought(rows)[..n] == Bought(rows[..n]);
      BoughtSums(rows[..n], i);
    }
  }

  /** A fill whose order is not to be found is listed as if it had been bought. */
  lemma UnknownIsBought(rows: seq<Row>)
    ensures LedgerListed(rows) == LedgerListed(Bought(rows))
  {
    var known := Bought(rows);
    forall i
      ensures i in Traded(rows) <==> i in Traded(known)
      ensures Net(known, i) == Net(rows, i) && Cost(known, i) == Cost(rows, i)
    {
      BoughtSums(rows, i);
      if i in Traded(rows) {
        var k :| 0 <= k < |rows| && rows[k].instrument == i;
        assert known[k].instrument == i;
      }
      if i in Traded(known) {
        var k :| 0 <= k < |known| && known[k].instrument == i;
        assert rows[k].instrument == i;
      }
    }
    hide Net, Cost, Traded;
  }

  // ---- average prices

  /** The fill adds to the position, or is at its average price, or moves nothing. */
  predicate AtAverage(book: Book, f: Fill) {
    f.instrument in book ==>
      var p := book[f.instrument];
      p.direction.Long? == f.side.Buy? || f.price == p.avgPrice || f.qty == 0.0 || p.qty == 0.0
  }

  function At(book: Book, i: string): Option<Position> {
    if i in book then Some(book[i]) else None
  }

  /** What a position cost at its average price. */
  function Carried(p: Option<Position>): real {
    if p.None? then 0.0 else p.value.avgPrice * SignedQty(p.value)
  }

  /** ... is what the ledger's fills add up to. */
  predicate CostAgrees(book: Book, cost: real, i: string) {
    Carried(At(book, i)) == cost
  }

  lemma MulZero(a: real, b: real)
    ensures a * b == 0.0 <==> a == 0.0 || b == 0.0
  {
    if a != 0.0 && a * b == 0.0 {
      assert b == (a * b) / a;
    }
  }

  /** x == n / d exactly if x * d == n. */
  lemma Quotient(x: real, n: real, d: real)
    requires d != 0.0
    ensures (n / d) * d == n
    ensures x == n / d <==> x * d == n
  {
    if x * d == n {
      assert x == (x * d) / d;
    }
  }

  lemma WeightedTimes(a: real, q: real, p: real, r: real)
    requires q + r != 0.0
    ensures Weighted(a, q, p, r) * (q + r) == a * q + p * r
  {
    Quotient(Weighted(a, q, p, r), a * q + p * r, q + r);
  }

  /** How much of a position its average price is wrong about after a fill against it. */
  function Weight(q: real, r: real): real
    requires q >= 0.0 && r >= 0.0
  {
    if r > q then q else if q + r == 0.0 then 0.0 else 2.0 * (q * r) / (q + r)
  }

  lemma WeightTimes(q: real, r: real)
    requires q >= r >= 0.0 && q + r > 0.0
    ensures Weight(q, r) * (q + r) == 2.0 * (q * r)
  {
    Quotient(Weight(q, r), 2.0 * (q * r), q + r);
  }

  lemma WeightZero(q: real, r: real)
    requires q >= 0.0 && r >= 0.0
    ensures Weight(q, r) == 0.0 <==> q == 0.0 || r == 0.0
    ensures q == r ==> Weight(q, r) == q
  {
    if q + r > 0.0 && r <= q {
      Quotient(0.0, 2.0 * (q * r), q + r);
      MulZero(q, r);
      Quotient(q, 2.0 * (q * r), q + r);
    }
  }

  /** A reducing fill: averaging it in, as the simulator does, against subtracting it, as the ledger does. */
  lemma ReducingFill(a: real, q: real, p: real, r: real)
    requires q >= r >= 0.0 && q + r > 0.0
    ensures Weighted(a, q, p, r) * (q - r) == a * q - p * r + (p - a) * Weight(q, r)
  {
    var m, w, d := Weighted(a, q, p, r), Weight(q, r), q + r;
    WeightedTimes(a, q, p, r);
    WeightTimes(q, r);
    hide Weighted, Weight;
    Scaled(m * (q - r), a * q - p * r + (p - a) * w, d);
    Swap(m, q - r, d);
    assert m * d * (q - r) == (a * q + p * r) * (q - r);
    Plus(a * q - p * r, (p - a) * w, d);
    Assoc(p - a, w, d);
    Expand(a, q, p, r);
    Assoc(2.0, q * r, p - a);
  }

  lemma Plus(x: real, y: real, d: real)
    ensures (x + y) * d == x * d + y * d
  {
  }

  lemma Assoc(x: real, y: real, d: real)
    ensures x * y * d == x * (y * d) && x * (y * d) == d * (x * y)
  {
  }

  lemma Swap(m: real, x: real, y: real)
    ensures m * x * y == m * y * x
  {
  }

  lemma Scaled(x: real, y: real, k: real)
    requires k != 0.0
    ensures x == y <==> x * k == y * k
  {
    if x * k == y * k {
      assert x == (x * k) / k && y == (y * k) / k;
    }
  }

  lemma Expand(a: real, q: real, p: real, r: real)
    ensures (a * q + p * r) * (q - r) - (a * q - p * r) * (q + r) == 2.0 * ((q * r) * (p - a))
  {
  }

  lemma Negated(a: real, b: real)
    ensures a * -b == -(a * b) && -a * b == -(a * b)
  {
  }

  lemma Distributes(a: real, b: real, c: real)
    ensures (a - b) * c == a * c - b * c
    ensures c * (a - b) == c * a - c * b
  {
  }

  /** What the position cost, without the sign of its side. */
  function Worth(p: Option<Position>): real {
    if p.None? then 0.0 else p.value.avgPrice * p.value.qty
  }

  lemma AddingFill(p: Position, f: Fill)
    requires p.qty >= 0.0 && f.qty >= 0.0 && p.direction.Long? == f.side.Buy?
    ensures Worth(Moved(p, f)) == p.avgPrice * p.qty + f.price * f.qty
    ensures Moved(p, f).Some? ==> Moved(p, f).value.direction == p.direction
  {
    var q, r := p.qty, f.qty;
    hide Weighted;
    if q + r > 0.0 {
      WeightedTimes(p.avgPrice, q, f.price, r);
      assert Moved(p, f) == Some(Position(p.direction, q + r, Weighted(p.avgPrice, q, f.price, r)));
    } else {
      assert q == 0.0 && r == 0.0 && Moved(p, f).None?;
    }
  }

  /** A fill against the position that does not turn it round. */
  lemma OpposingFill(p: Position, f: Fill)
    requires p.qty >= f.qty >= 0.0 && p.direction.Long? != f.side.Buy?
    ensures Worth(Moved(p, f))
         == p.avgPrice * p.qty - f.price * f.qty + (f.price - p.avgPrice) * Weight(p.qty, f.qty)
    ensures Moved(p, f).Some? ==> Moved(p, f).value.direction == p.direction
  {
    hide Weighted, Weight;
    var a, q, r := p.avgPrice, p.qty, f.qty;
    if q == r {
      assert Moved(p, f).None?;
      WeightZero(q, r);
      Distributes(f.price, a, q);
    } else {
      assert SignedQty(p) + Signed(f.side, r) == if p.direction.Long? then q - r else r - q;
      assert Moved(p, f).value.qty == q - r;
      assert Moved(p, f).value.avgPrice == Weighted(a, q, f.price, r);
      ReducingFill(a, q, f.price, r);
    }
  }

  /** A fill that turns the position round. */
  lemma TurningFill(p: Position, f: Fill)
    requires 0.0 <= p.qty < f.qty && p.direction.Long? != f.side.Buy?
    ensures var m := Moved(p, f);
      && m.Some? && m.value.direction != p.direction
      && -Worth(m) == p.avgPrice * p.qty - f.price * f.qty + (f.price - p.avgPrice) * Weight(p.qty, f.qty)
  {
    var a, q, r := p.avgPrice, p.qty, f.qty;
    assert Moved(p, f).value.avgPrice == f.price && Moved(p, f).value.qty == r - q;
    Distributes(r, q, f.price);
    Distributes(f.price, a, q);
  }

  lemma WorthSigned(p: Position)
    ensures Carried(Some(p)) == if p.direction.Long? then Worth(Some(p)) else -Worth(Some(p))
  {
    Negated(p.avgPrice, p.qty);
  }

  function Flip(d: Direction, x: real): real {
    if d.Long? then x else -x
  }

  /** What a fill adds to the simulator's cost beyond its own. */
  function Gap(p: Position, f: Fill): real
    requires p.qty >= 0.0 && f.qty >= 0.0
  {
    if p.direction.Long? == f.side.Buy? then 0.0
    else Flip(p.direction, (f.price - p.avgPrice) * Weight(p.qty, f.qty))
  }

  lemma MovedCost(p: Position, f: Fill)
    requires p.qty >= 0.0 && f.qty >= 0.0
    ensures Carried(Moved(p, f)) == Carried(Some(p)) + Signed(f.side, f.qty) * f.price + Gap(p, f)
  {
    hide Moved, Weight;
    var next := Moved(p, f);
    Negated(f.qty, f.price);
    assert f.qty * f.price == f.price * f.qty;
    WorthSigned(p);
    if next.Some? {
      WorthSigned(next.value);
    }
    if p.direction.Long? == f.side.Buy? {
      AddingFill(p, f);
    } else if p.qty >= f.qty {
      OpposingFill(p, f);
    } else {
      TurningFill(p, f);
    }
    hide Carried;
  }

  lemma GapZero(p: Position, f: Fill)
    requires p.qty >= 0.0 && f.qty >= 0.0
    ensures Gap(p, f) == 0.0
       <==> p.direction.Long? == f.side.Buy? || f.price == p.avgPrice || f.qty == 0.0 || p.qty == 0.0
  {
    MulZero(f.price - p.avgPrice, Weight(p.qty, f.qty));
    WeightZero(p.qty, f.qty);
    hide Weight;
  }

  function GapAt(book: Book, f: Fill): real
    requires Valid(book) && f.qty >= 0.0
  {
    if f.instrument in book then Gap(book[f.instrument], f) else 0.0
  }

  lemma UpdateCost(book: Book, f: Fill)
    requires Valid(book) && f.qty >= 0.0
    ensures Carried(At(Update(book, f), f.instrument))
         == Carried(At(book, f.instrument)) + Signed(f.side, f.qty) * f.price + GapAt(book, f)
  {
    if f.instrument !in book {
      Negated(f.qty, f.price);
      assert f.qty * f.price == f.price * f.qty;
      WorthSigned(Opened(f));
    } else {
      MovedCost(book[f.instrument], f);
      hide Moved, Carried, Gap;
      assert At(Update(book, f), f.instrument) == Moved(book[f.instrument], f);
    }
  }

  /** One fill: where the costs agreed they still do exactly if the fill adds or is at the average. */
  lemma CostStep(book: Book, f: Fill, cost: real)
    requires Valid(book) && f.qty >= 0.0 && CostAgrees(book, cost, f.instrument)
    ensures CostAgrees(Update(book, f), cost + Signed(f.side, f.qty) * f.price, f.instrument)
       <==> AtAverage(book, f)
  {
    UpdateCost(book, f);
    if f.instrument in book {
      GapZero(book[f.instrument], f);
    }
    hide Update, Carried, Gap;
  }

  /** For every instrument, what the simulator carries is what the ledger adds up. */
  ghost predicate CostsAgree(fills: seq<Fill>)
    requires Fills(fills)
  {
    forall i :: CostAgrees(Simulated(fills), Cost(Recorded(fills), i), i)
  }

  lemma UnrollBook(fills: seq<Fill>, f: Fill)
    requires Fills(fills) && f.qty >= 0.0
    ensures Simulated(fills + [f]) == Update(Simulated(fills), f)
  {
    hide Update;
    assert (fills + [f])[..|fills|] == fills;
  }

  lemma UnrollCost(fills: seq<Fill>, f: Fill, i: string)
    ensures Cost(Recorded(fills + [f]), i)
         == Cost(Recorded(fills), i) + if f.instrument == i then Signed(f.side, f.qty) * f.price else 0.0
  {
    var rows, n := Recorded(fills + [f]), |fills|;
    assert rows[..n] == Recorded(fills);
    assert rows[n] == Row(f.instrument, Some(f.side), f.qty, f.price);
    assert RowSigned(rows[n]) == Signed(f.side, f.qty);
    hide Recorded, RowSigned, Signed;
  }

  lemma CostsStep(fills: seq<Fill>, f: Fill)
    requires Fills(fills) && f.qty >= 0.0 && CostsAgree(fills)
    ensures CostsAgree(fills + [f]) <==> AtAverage(Simulated(fills), f)
  {
    hide Simulated, Cost, Recorded, AtAverage, Signed, Carried;
    var book, i := Simulated(fills), f.instrument;
    assert CostAgrees(book, Cost(Recorded(fills), i), i);
    CostStep(book, f, Cost(Recorded(fills), i));
    UnrollBook(fills, f);
    UnrollCost(fills, f, i);
    forall j | j != i
      ensures CostAgrees(Simulated(fills + [f]), Cost(Recorded(fills + [f]), j), j)
    {
      assert CostAgrees(book, Cost(Recorded(fills), j), j);
      UnrollCost(fills, f, j);
      hide Update;
    }
    hide Update, CostAgrees;
    assert CostsAgree(fills + [f]) ==>
      CostAgrees(Simulated(fills + [f]), Cost(Recorded(fills + [f]), i), i);
  }

  ghost predicate CostsAgreeAfter(fills: seq<Fill>, n: nat)
    requires Fills(fills) && n <= |fills|
  {
    CostsAgree(fills[..n])
  }

  predicate AtAverageThen(fills: seq<Fill>, k: nat)
    requires Fills(fills) && k < |fills|
  {
    AtAverage(Simulated(fills[..k]), fills[k])
  }

  /**
   The two agree on costs all the way along a list of fills exactly if every fill that goes against
   a position is made at that position's average price.
   */
  lemma {:induction false} CostsAgreeThroughout(fills: seq<Fill>)
    requires Fills(fills)
    ensures (forall n :: 0 <= n <= |fills| ==> CostsAgreeAfter(fills, n))
       <==> (forall k :: 0 <= k < |fills| ==> AtAverageThen(fills, k))
  {
    assert fills != [] ==> Fills(fills[..|fills| - 1]);
    AtTheStart(fills);
    hide *;
    if fills != [] {
      var m := |fills| - 1;
      var init := fills[..m];
      CostsAgreeThroughout(init);
      EarlierCosts(fills);
      LastCost(fills);
      assert CostsAgreeAfter(init, m) == CostsAgreeAfter(fills, m);
    }
  }

  lemma EarlierCosts(fills: seq<Fill>)
    requires Fills(fills) && fills != []
    ensures var init := fills[..|fills| - 1];
      && (forall n :: 0 <= n < |fills| ==> CostsAgreeAfter(init, n) == CostsAgreeAfter(fills, n))
      && (forall k :: 0 <= k < |fills| - 1 ==> AtAverageThen(init, k) == AtAverageThen(fills, k))
  {
    hide Simulated, CostsAgree, AtAverage;
    var init := fills[..|fills| - 1];
    assert forall n :: 0 <= n < |fills| ==> init[..n] == fills[..n];
  }

  lemma LastCost(fills: seq<Fill>)
    requires Fills(fills) && fills != []
    ensures var m := |fills| - 1;
      CostsAgreeAfter(fills, m) ==> (CostsAgreeAfter(fills, m + 1) <==> AtAverageThen(fills, m))
  {
    hide Simulated, CostsAgree, AtAverage;
    var m := |fills| - 1;
    assert fills[..m] + [fills[m]] == fills == fills[..m + 1];
    if CostsAgree(fills[..m]) {
      CostsStep(fills[..m], fills[m]);
    }
  }

  // ---- listings

  /** Whatever the costs differ by shows in the average price, divided by the quantity. */
  lemma PositionIff(book: Book, rows: seq<Row>, i: string, d: real)
    requires Valid(book) && OpenIn(rows, i)
    requires Held(book, i) == Net(rows, i) && Carried(At(book, i)) == Cost(rows, i) + d
    ensures i in book && book[i].qty >= DUST
    ensures book[i].avgPrice - Netted(rows, i).avgPrice == d / Net(rows, i)
    ensures book[i] == Netted(rows, i) <==> d == 0.0
  {
    var cost, net := Cost(rows, i), Net(rows, i);
    hide Net, Cost;
    Quotient(book[i].avgPrice, cost + d, net);
    SplitQuotient(cost, d, net);
    Quotient(0.0, d, net);
  }

  lemma SplitQuotient(x: real, y: real, d: real)
    requires d != 0.0
    ensures (x + y) / d == x / d + y / d
  {
    Quotient(0.0, x, d);
    Quotient(0.0, y, d);
    Plus(x / d, y / d, d);
    Quotient(x / d + y / d, x + y, d);
  }

  /** A book that carries each instrument's net, at a cost that differs from the ledger's by `dev`. */
  ghost predicate Tracks(book: Book, rows: seq<Row>, dev: string -> real) {
    && Valid(book)
    && forall i :: Held(book, i) == Net(rows, i) && Carried(At(book, i)) == Cost(rows, i) + dev(i)
  }

  lemma ListingIff(book: Book, rows: seq<Row>, dev: string -> real)
    requires Tracks(book, rows, dev)
    ensures SimListed(book).Keys == LedgerListed(rows).Keys
    ensures SimListed(book) == LedgerListed(rows) <==> forall i :: OpenIn(rows, i) ==> dev(i) == 0.0
    ensures forall i :: OpenIn(rows, i) ==>
      && i in SimListed(book) && i in LedgerListed(rows)
      && SimListed(book)[i].avgPrice - LedgerListed(rows)[i].avgPrice == dev(i) / Net(rows, i)
  {
    forall i
      ensures i in SimListed(book) <==> OpenIn(rows, i)
      ensures i in LedgerListed(rows) <==> OpenIn(rows, i)
      ensures OpenIn(rows, i) ==>
        && book[i].avgPrice - Netted(rows, i).avgPrice == dev(i) / Net(rows, i)
        && (book[i] == Netted(rows, i) <==> dev(i) == 0.0)
    {
      assert Held(book, i) == Net(rows, i);
      if OpenIn(rows, i) {
        PositionIff(book, rows, i, dev(i));
      }
      if i !in Traded(rows) {
        Untraded(rows, i);
      }
    }
    hide OpenIn, Netted, Net, Cost, Traded, Tracks, Held, Carried, At;
    var s, l := SimListed(book), LedgerListed(rows);
    assert s == l <==> forall i :: i in s ==> s[i] == l[i];
  }

  /** What the fills so far have made the simulator's cost differ by. */
  function Deviation(fills: seq<Fill>, i: string): real
    requires Fills(fills)
  {
    if fills == [] then 0.0
    else
      var n := |fills| - 1;
      Deviation(fills[..n], i) + if fills[n].instrument == i then GapAt(Simulated(fills[..n]), fills[n]) else 0.0
  }

  lemma {:induction false} CarriedIsCost(fills: seq<Fill>, i: string)
    requires Fills(fills)
    ensures Carried(At(Simulated(fills), i)) == Cost(Recorded(fills), i) + Deviation(fills, i)
  {
    if fills != [] {
      var n := |fills| - 1;
      var init, f := fills[..n], fills[n];
      assert init + [f] == fills;
      CarriedIsCost(init, i);
      UnrollBook(init, f);
      UnrollCost(init, f, i);
      if f.instrument == i {
        UpdateCost(Simulated(init), f);
      }
      hide Update, Simulated, Cost, Recorded, Carried, GapAt, Signed;
    }
  }

  /**
   Simulator and ledger list the same, average prices included, exactly if for every listed
   instrument the deviations of its fills have cancelled out; otherwise its average prices differ
   by that sum over the quantity.
   */
  lemma SameListing(fills: seq<Fill>)
    requires Fills(fills)
    ensures var s, l, rows := SimListed(Simulated(fills)), LedgerListed(Recorded(fills)), Recorded(fills);
      && (s == l <==> forall i :: OpenIn(rows, i) ==> Deviation(fills, i) == 0.0)
      && forall i :: OpenIn(rows, i) ==>
           && i in s && i in l
           && s[i].avgPrice - l[i].avgPrice == Deviation(fills, i) / Net(rows, i)
  {
    var book, rows := Simulated(fills), Recorded(fills);
    var dev := (i: string) => Deviation(fills, i);
    forall i
      ensures Held(book, i) == Net(rows, i) && Carried(At(book, i)) == Cost(rows, i) + dev(i)
    {
      HeldIsNet(fills, i);
      CarriedIsCost(fills, i);
    }
    hide Simulated, Recorded, Net, Cost, OpenIn, Deviation, SimListed, LedgerListed, Held, Carried, At;
    ListingIff(book, rows, dev);
  }

  /** Fills that deviate and listings that agree all the same: the position is closed. */
  lemma DeviationForgottenWhenClosed(i: string)
    ensures var fills := [Fill(i, Buy, 1.0, 100.0), Fill(i, Sell, 1.0, 110.0)];
      && Deviation(fills, i) == 10.0
      && SimListed(Simulated(fills)) == LedgerListed(Recorded(fills)) == map[]
  {
    var f, g := Fill(i, Buy, 1.0, 100.0), Fill(i, Sell, 1.0, 110.0);
    var fills := [f, g];
    assert fills[..1] == [f] && [f][..0] == [];
    assert Simulated([f]) == map[i := Position(Long, 1.0, 100.0)];
    assert Deviation([f], i) == 0.0;
    assert Simulated(fills) == map[];
    SameListing(fills);
    SameSideAndQuantity(fills);
  }

  /** While an instrument's fills are all on one side, the listings are the same. */
  lemma {:induction false} OneSided(fills: seq<Fill>)
    requires Fills(fills)
    requires forall j, k :: 0 <= j < |fills| && 0 <= k < |fills| && fills[j].instrument == fills[k].instrument
                ==> fills[j].side == fills[k].side
    ensures SimListed(Simulated(fills)) == LedgerListed(Recorded(fills))
  {
    forall k | 0 <= k < |fills|
      ensures AtAverageThen(fills, k)
    {
      assert forall j :: 0 <= j < k ==> fills[..k][j] == fills[j];
      SideKept(fills[..k], fills[k].instrument, fills[k].side);
    }
    CostsAgreeThroughout(fills);
    assert CostsAgreeAfter(fills, |fills|) && fills[..|fills|] == fills;
    forall i
      ensures Deviation(fills, i) == 0.0
    {
      CarriedIsCost(fills, i);
      assert CostAgrees(Simulated(fills), Cost(Recorded(fills), i), i);
    }
    hide Deviation, Simulated, SimListed, LedgerListed, Recorded;
    SameListing(fills);
  }

  lemma {:induction false} SideKept(fills: seq<Fill>, i: string, side: Side)
    requires Fills(fills)
    requires forall k :: 0 <= k < |fills| && fills[k].instrument == i ==> fills[k].side == side
    ensures i in Simulated(fills) ==> Simulated(fills)[i].direction.Long? == side.Buy?
  {
    if fills != [] {
      var n := |fills| - 1;
      assert forall k :: 0 <= k < n ==> fills[..n][k] == fills[k];
      SideKept(fills[..n], i, side);
    }
  }

  /** Two bought at 100 and one of them sold at 110: 103 1/3 in the simulator, 90 in the ledger. */
  lemma AveragesDiffer(i: string)
    ensures var fills := [Fill(i, Buy, 2.0, 100.0), Fill(i, Sell, 1.0, 110.0)];
      && Simulated(fills) == map[i := Position(Long, 1.0, 310.0 / 3.0)]
      && LedgerListed(Recorded(fills)) == map[i := Position(Long, 1.0, 90.0)]
  {
    var f, g := Fill(i, Buy, 2.0, 100.0), Fill(i, Sell, 1.0, 110.0);
    var fills := [f, g];
    assert fills[..1] == [f] && [f][..0] == [];
    assert Simulated([f]) == map[i := Position(Long, 2.0, 100.0)];
    var rows := Recorded(fills);
    RecordedInit(fills);
    assert rows[..1] == Recorded([f]) && Recorded([f])[..0] == [];
    assert Net(Recorded([f]), i) == 2.0 && Cost(Recorded([f]), i) == 200.0;
    assert Net(rows, i) == 1.0 && Cost(rows, i) == 90.0;
    assert rows[0].instrument == i && rows[1].instrument == i;
    assert Traded(rows) == {i};
  }

  // ---- the price the open quantity was entered at

  /** A fill that closes part of a position leaves the average entry price of the rest as it was. */
  function EntryMoved(cur: Position, f: Fill): Option<Position>
    requires cur.qty >= 0.0 && f.qty >= 0.0
  {
    match Moved(cur, f)
    case None => None
    case Some(p) =>
      Some(if cur.direction.Long? != f.side.Buy? && f.qty < cur.qty then p.(avgPrice := cur.avgPrice) else p)
  }

  function EntryUpdate(book: Book, f: Fill): (next: Book)
    requires Valid(book) && f.qty >= 0.0
    ensures Valid(next)
  {
    var i := f.instrument;
    if i !in book then book[i := Opened(f)]
    else
      match EntryMoved(book[i], f)
      case None => book - {i}
      case Some(p) => book[i := p]
  }

  function Entered(fills: seq<Fill>): (book: Book)
    requires Fills(fills)
    ensures Valid(book)
  {
    if fills == [] then map[] else EntryUpdate(Entered(fills[..|fills| - 1]), fills[|fills| - 1])
  }

  /** The fill does not close part of a position, or does so at its average price. */
  predicate PartialAtAverage(book: Book, f: Fill) {
    f.instrument in book ==>
      var p := book[f.instrument];
      p.direction.Long? == f.side.Buy? || f.qty >= p.qty || f.price == p.avgPrice || f.qty == 0.0
  }

  lemma AveragingIn(a: real, q: real, p: real, r: real)
    requires q > r >= 0.0
    ensures Weighted(a, q, p, r) == a <==> p == a || r == 0.0
  {
    Quotient(a, a * q + p * r, q + r);
    assert a * (q + r) == a * q + a * r;
    Distributes(a, p, r);
    MulZero(a - p, r);
  }

  lemma EntryMove(p: Position, f: Fill)
    requires p.qty >= 0.0 && f.qty >= 0.0
    ensures Moved(p, f) == EntryMoved(p, f)
       <==> p.direction.Long? == f.side.Buy? || f.qty >= p.qty || f.price == p.avgPrice || f.qty == 0.0
  {
    if p.direction.Long? != f.side.Buy? && f.qty < p.qty {
      AveragingIn(p.avgPrice, p.qty, f.price, f.qty);
      assert SignedQty(p) + Signed(f.side, f.qty) == if p.direction.Long? then p.qty - f.qty else f.qty - p.qty;
    }
  }

  lemma EntryStep(book: Book, f: Fill)
    requires Valid(book) && f.qty >= 0.0
    ensures Update(book, f) == EntryUpdate(book, f) <==> PartialAtAverage(book, f)
  {
    var i := f.instrument;
    if i in book {
      EntryMove(book[i], f);
      assert Moved(book[i], f).None? <==> EntryMoved(book[i], f).None?;
      hide Moved, EntryMoved;
      assert At(Update(book, f), i) == Moved(book[i], f);
      assert At(EntryUpdate(book, f), i) == EntryMoved(book[i], f);
    }
  }

  predicate EntryKeptAfter(fills: seq<Fill>, n: nat)
    requires Fills(fills) && n <= |fills|
  {
    Simulated(fills[..n]) == Entered(fills[..n])
  }

  predicate PartialAtAverageThen(fills: seq<Fill>, k: nat)
    requires Fills(fills) && k < |fills|
  {
    PartialAtAverage(Simulated(fills[..k]), fills[k])
  }

  /**
   The simulator's average is the average entry price all along exactly if every fill that closes
   part of a position is at its average price: closing it all and turning it round are right.
   */
  lemma {:induction false} SimulatorKeepsEntry(fills: seq<Fill>)
    requires Fills(fills)
    ensures (forall n :: 0 <= n <= |fills| ==> EntryKeptAfter(fills, n))
       <==> (forall k :: 0 <= k < |fills| ==> PartialAtAverageThen(fills, k))
  {
    assert fills != [] ==> Fills(fills[..|fills| - 1]);
    AtTheStart(fills);
    hide *;
    if fills != [] {
      var m := |fills| - 1;
      var init := fills[..m];
      SimulatorKeepsEntry(init);
      EarlierEntries(fills);
      LastEntry(fills);
      assert EntryKeptAfter(init, m) == EntryKeptAfter(fills, m);
    }
  }

  lemma AtTheStart(fills: seq<Fill>)
    requires Fills(fills)
    ensures CostsAgreeAfter(fills, 0) && EntryKeptAfter(fills, 0)
  {
    assert fills[..0] == [];
  }

  lemma EarlierEntries(fills: seq<Fill>)
    requires Fills(fills) && fills != []
    ensures var init := fills[..|fills| - 1];
      && (forall n :: 0 <= n < |fills| ==> EntryKeptAfter(init, n) == EntryKeptAfter(fills, n))
      && (forall k :: 0 <= k < |fills| - 1 ==> PartialAtAverageThen(init, k) == PartialAtAverageThen(fills, k))
  {
    hide Simulated, Entered, PartialAtAverage;
    var init := fills[..|fills| - 1];
    assert forall n :: 0 <= n < |fills| ==> init[..n] == fills[..n];
  }

  lemma LastEntry(fills: seq<Fill>)
    requires Fills(fills) && fills != []
    ensures var m := |fills| - 1;
      EntryKeptAfter(fills, m) ==> (EntryKeptAfter(fills, m + 1) <==> PartialAtAverageThen(fills, m))
  {
    hide Update, EntryUpdate, PartialAtAverage;
    var m := |fills| - 1;
    assert fills == fills[..m + 1];
    EntryStep(Simulated(fills[..m]), fills[m]);
  }

  /** Profit or loss that a fill against a position realises. */
  function Profit(p: Position, f: Fill): real {
    if p.direction.Long? == f.side.Buy? then 0.0
    else Flip(p.direction, (f.price - p.avgPrice) * if f.qty < p.qty then f.qty else p.qty)
  }

  function ProfitAt(book: Book, f: Fill): real {
    if f.instrument in book then Profit(book[f.instrument], f) else 0.0
  }

  /** Realised profit and loss of an instrument, at average entry prices. */
  function Realised(fills: seq<Fill>, i: string): real
    requires Fills(fills)
  {
    if fills == [] then 0.0
    else
      var n := |fills| - 1;
      Realised(fills[..n], i) + if fills[n].instrument == i then ProfitAt(Entered(fills[..n]), fills[n]) else 0.0
  }

  lemma EntryOpposing(p: Position, f: Fill)
    requires p.qty >= 0.0 && f.qty >= 0.0 && p.direction.Long? != f.side.Buy?
    ensures var next := EntryMoved(p, f);
      Carried(next) == Carried(Some(p)) + Signed(f.side, f.qty) * f.price + Profit(p, f)
  {
    var a, q, r := p.avgPrice, p.qty, f.qty;
    var next := EntryMoved(p, f);
    hide Weighted;
    Negated(r, f.price);
    assert r * f.price == f.price * r;
    WorthSigned(p);
    if r < q {
      assert SignedQty(p) + Signed(f.side, r) == if p.direction.Long? then q - r else r - q;
      assert next == Some(Position(p.direction, q - r, a));
      WorthSigned(next.value);
      Distributes(q, r, a);
      Distributes(f.price, a, r);
    } else if r == q {
      assert next.None?;
      Distributes(f.price, a, q);
    } else {
      TurningFill(p, f);
      WorthSigned(next.value);
      Distributes(f.price, a, q);
    }
    hide EntryMoved, Moved, Carried, Weight;
  }

  lemma EntryUpdateCost(book: Book, f: Fill)
    requires Valid(book) && f.qty >= 0.0
    ensures Carried(At(EntryUpdate(book, f), f.instrument))
         == Carried(At(book, f.instrument)) + Signed(f.side, f.qty) * f.price + ProfitAt(book, f)
    ensures Held(EntryUpdate(book, f), f.instrument) == Held(Update(book, f), f.instrument)
  {
    if f.instrument !in book {
      UpdateCost(book, f);
      assert EntryUpdate(book, f) == Update(book, f);
    } else {
      var p := book[f.instrument];
      if p.direction.Long? == f.side.Buy? {
        MovedCost(p, f);
        assert EntryMoved(p, f) == Moved(p, f);
      } else {
        EntryOpposing(p, f);
      }
      hide Moved, Carried, Profit, Weight;
      assert At(EntryUpdate(book, f), f.instrument) == EntryMoved(p, f);
      assert At(Update(book, f), f.instrument) == Moved(p, f);
    }
  }

  lemma UnrollEntry(fills: seq<Fill>, f: Fill)
    requires Fills(fills) && f.qty >= 0.0
    ensures Entered(fills + [f]) == EntryUpdate(Entered(fills), f)
  {
    hide EntryUpdate;
    assert (fills + [f])[..|fills|] == fills;
  }

  lemma {:induction false} EntryTracks(fills: seq<Fill>, i: string)
    requires Fills(fills)
    ensures Held(Entered(fills), i) == Held(Simulated(fills), i)
    ensures Carried(At(Entered(fills), i)) == Cost(Recorded(fills), i) + Realised(fills, i)
  {
    if fills != [] {
      var n := |fills| - 1;
      var init, f := fills[..n], fills[n];
      assert init + [f] == fills;
      EntryTracks(init, i);
      UnrollBook(init, f);
      UnrollEntry(init, f);
      UnrollCost(init, f, i);
      if f.instrument == i {
        EntryUpdateCost(Entered(init), f);
        HeldMoves(Entered(init), f, i);
        HeldMoves(Simulated(init), f, i);
      } else {
        OtherUntouched(Entered(init), f, i);
      }
      hide Update, EntryUpdate, Simulated, Entered, Cost, Recorded, Carried, ProfitAt, Signed, Held;
    }
  }

  lemma OtherUntouched(book: Book, f: Fill, i: string)
    requires Valid(book) && f.qty >= 0.0 && f.instrument != i
    ensures At(EntryUpdate(book, f), i) == At(book, i) == At(Update(book, f), i)
    ensures Held(EntryUpdate(book, f), i) == Held(book, i) == Held(Update(book, f), i)
  {
  }

  /** A fill moves the quantity held by its own, and leaves no position exactly where that makes zero. */
  lemma HeldMoves(book: Book, f: Fill, i: string)
    requires Valid(book) && f.qty >= 0.0
    ensures Held(Update(book, f), i) == Held(book, i) + if f.instrument == i then Signed(f.side, f.qty) else 0.0
    ensures f.instrument == i ==>
      (i in Update(book, f) <==> !(i in book && Held(book, i) + Signed(f.side, f.qty) == 0.0))
  {
  }

  /**
   The ledger's average is the average entry price of the open quantity, for every listed
   instrument, exactly if the profit and loss realised on each of them is zero; otherwise it is
   short of it by that profit over the quantity.
   */
  lemma LedgerListsEntry(fills: seq<Fill>)
    requires Fills(fills)
    ensures var e, l, rows := SimListed(Entered(fills)), LedgerListed(Recorded(fills)), Recorded(fills);
      && (e == l <==> forall i :: OpenIn(rows, i) ==> Realised(fills, i) == 0.0)
      && forall i :: OpenIn(rows, i) ==>
           && i in e && i in l
           && e[i].avgPrice - l[i].avgPrice == Realised(fills, i) / Net(rows, i)
  {
    var book, rows := Entered(fills), Recorded(fills);
    var dev := (i: string) => Realised(fills, i);
    forall i
      ensures Held(book, i) == Net(rows, i) && Carried(At(book, i)) == Cost(rows, i) + dev(i)
    {
      HeldIsNet(fills, i);
      EntryTracks(fills, i);
    }
    hide Simulated, Entered, Recorded, Net, Cost, OpenIn, Realised, SimListed, LedgerListed, Held, Carried, At;
    ListingIff(book, rows, dev);
  }

  // ---- the range of the average

  function Times(x: real, y: real): real {
    x * y
  }

  lemma Monotone(x: real, y: real, k: real)
    requires x <= y && k >= 0.0
    ensures Times(x, k) <= Times(y, k)
  {
    assert (y - x) * k >= 0.0;
  }

  lemma Sum(x: real, q: real, r: real)
    ensures Times(x, q + r) == Times(x, q) + Times(x, r)
  {
  }

  lemma WeightedSum(a: real, q: real, p: real, r: real, lo: real, hi: real)
    requires q >= 0.0 && r >= 0.0 && lo <= a <= hi && lo <= p <= hi
    ensures Times(lo, q + r) <= Times(a, q) + Times(p, r) <= Times(hi, q + r)
  {
    Monotone(lo, a, q);
    Monotone(lo, p, r);
    Monotone(a, hi, q);
    Monotone(p, hi, r);
    Sum(lo, q, r);
    Sum(hi, q, r);
    hide Times;
  }

  lemma Ordered(x: real, y: real, k: real)
    requires k > 0.0
    ensures x <= y <==> Times(x, k) <= Times(y, k)
  {
    if x > y {
      assert (x - y) * k > 0.0;
    } else {
      Monotone(x, y, k);
    }
  }

  lemma Between(a: real, q: real, p: real, r: real, lo: real, hi: real)
    requires q >= 0.0 && r >= 0.0 && q + r > 0.0 && lo <= a <= hi && lo <= p <= hi
    ensures lo <= Weighted(a, q, p, r) <= hi
  {
    WeightedSum(a, q, p, r, lo, hi);
    WeightedTimes(a, q, p, r);
    var m := Weighted(a, q, p, r);
    assert Times(m, q + r) == Times(a, q) + Times(p, r);
    hide Weighted, Times;
    Ordered(lo, m, q + r);
    Ordered(m, hi, q + r);
  }

  lemma MovedInRange(p: Position, f: Fill, lo: real, hi: real)
    requires p.qty >= 0.0 && f.qty >= 0.0 && lo <= p.avgPrice <= hi && lo <= f.price <= hi
    ensures Moved(p, f).Some? ==> lo <= Moved(p, f).value.avgPrice <= hi
  {
    if p.qty + f.qty > 0.0 {
      Between(p.avgPrice, p.qty, f.price, f.qty, lo, hi);
    }
    hide Weighted;
  }

  /** The simulator's average price stays between the lowest and the highest price of the fills. */
  lemma {:induction false} AverageInRange(fills: seq<Fill>, i: string, lo: real, hi: real)
    requires Fills(fills)
    requires forall k :: 0 <= k < |fills| && fills[k].instrument == i ==> lo <= fills[k].price <= hi
    ensures i in Simulated(fills) ==> lo <= Simulated(fills)[i].avgPrice <= hi
  {
    if fills != [] {
      var n := |fills| - 1;
      var book, f := Simulated(fills[..n]), fills[n];
      assert forall k :: 0 <= k < n ==> fills[..n][k] == fills[k];
      AverageInRange(fills[..n], i, lo, hi);
      if f.instrument == i && i in book {
        MovedInRange(book[i], f, lo, hi);
      }
      hide Moved;
    }
  }

  // ---- closing

  /** `closeTrade` orders the opposite side, for the whole position unless a quantity is given. */
  function Closing(book: Book, i: string, qty: Option<real>, price: real): Option<Fill> {
    if i !in book then None
    else
      var p := book[i];
      Some(Fill(i, if p.direction.Long? then Sell else Buy, if qty.Some? then qty.value else p.qty, price))
  }

  /** What a close was ordered to take away. */
  function Wanted(p: Position, qty: Option<real>): real {
    Flip(p.direction, if qty.Some? then qty.value else p.qty)
  }

  /**
   A close is an order like any other: its size is taken from the positions at the order, and it
   is filled later, against the positions of that moment. It leaves their difference, and it
   closes the position exactly if that still is what was wanted.
   */
  lemma ClosesIff(book: Book, now: Book, i: string, qty: Option<real>, price: real)
    requires Valid(book) && Valid(now) && i in book && (qty.Some? ==> qty.value >= 0.0)
    ensures var f, wanted := Closing(book, i, qty, price).value, Wanted(book[i], qty);
      && Held(Update(now, f), i) == Held(now, i) - wanted
      && (i !in Update(now, f) <==> i in now && Held(now, i) == wanted)
  {
    var f := Closing(book, i, qty, price).value;
    assert Signed(f.side, f.qty) == -Wanted(book[i], qty);
    HeldMoves(now, f, i);
    hide Update;
  }

  lemma {:induction false} NetAppend(a: seq<Row>, b: seq<Row>, i: string)
    ensures Net(a + b, i) == Net(a, i) + Net(b, i)
  {
    if b == [] {
      assert a + b == a;
    } else {
      var n := |b| - 1;
      assert (a + b)[..|a| + n] == a + b[..n] && (a + b)[|a| + n] == b[n];
      NetAppend(a, b[..n], i);
    }
  }

  lemma HeldAfter(a: seq<Fill>, b: seq<Fill>, i: string)
    requires Fills(a) && Fills(b)
    ensures Held(Simulated(a + b), i) == Held(Simulated(a), i) + Net(Recorded(b), i)
  {
    assert Recorded(a + b) == Recorded(a) + Recorded(b);
    NetAppend(Recorded(a), Recorded(b), i);
    HeldIsNet(a + b, i);
    HeldIsNet(a, i);
    hide Simulated, Recorded, Net, Held;
  }

  /**
   Any fills at all may come between a close's order and its fill. What is left of the position
   is their net, so a close of the whole position closes it exactly if they net to zero.
   */
  lemma CloseLeavesWhatCameBetween(ordered: seq<Fill>, between: seq<Fill>, i: string, qty: Option<real>, price: real)
    requires Fills(ordered) && Fills(between) && i in Simulated(ordered) && (qty.Some? ==> qty.value >= 0.0)
    ensures var p, f := Simulated(ordered)[i], Closing(Simulated(ordered), i, qty, price).value;
      var after := Simulated(ordered + between + [f]);
      && Held(after, i) == SignedQty(p) - Wanted(p, qty) + Net(Recorded(between), i)
      && (p.qty > 0.0 && qty.None? ==>
            (i !in after <==> Net(Recorded(between), i) == 0.0) && Held(after, i) == Net(Recorded(between), i))
      && (Wanted(p, qty) != 0.0 ==>
            (i !in after <==> SignedQty(p) + Net(Recorded(between), i) == Wanted(p, qty)))
  {
    var book, now := Simulated(ordered), Simulated(ordered + between);
    var f := Closing(book, i, qty, price).value;
    HeldAfter(ordered, between, i);
    ClosesIff(book, now, i, qty, price);
    UnrollBook(ordered + between, f);
    assert Held(now, i) != 0.0 ==> i in now;
    hide Simulated, Update, Recorded, Net;
  }

  /**
   The smallest case of it: of two closes ordered before the first is filled, the second opens
   the same quantity the other way.
   */
  lemma ClosedTwiceIsReversed(book: Book, i: string, price: real, later: real)
    requires Valid(book) && i in book
    ensures var first, second := Closing(book, i, None, price).value, Closing(book, i, None, later).value;
      && Update(book, first) == book - {i}
      && var twice := Update(Update(book, first), second);
         i in twice && SignedQty(twice[i]) == -SignedQty(book[i]) && twice[i].avgPrice == later
  {
    var f := Closing(book, i, None, price).value;
    assert SignedQty(book[i]) + Signed(f.side, f.qty) == 0.0;
  }

  // ---- the simulator's account as it runs

  class SimAccount {
    var positions: Book

    constructor ()
      ensures positions == map[]
    {
      positions := map[];
    }

    /** The timer's callback of `openTrade`. */
    method Filled(f: Fill)
      requires Valid(positions) && f.qty >= 0.0
      modifies this
      ensures positions == Update(old(positions), f) && Valid(positions)
    {
      var sign := if f.side.Buy? then 1.0 else -1.0;
      if f.instrument !in positions {
        positions := positions[f.instrument := Position(if sign > 0.0 then Long else Short, f.qty, f.price)];
        return;
      }
      var cur := positions[f.instrument];
      var newQty := cur.qty * (if cur.direction.Long? then 1.0 else -1.0) + sign * f.qty;
      assert newQty == SignedQty(cur) + Signed(f.side, f.qty);
      if newQty == 0.0 {
        positions := positions - {f.instrument};
      } else if (newQty > 0.0) == cur.direction.Long? {
        assert cur.qty + f.qty > 0.0;
        var avg := (cur.avgPrice * cur.qty + f.price * f.qty) / (cur.qty + f.qty);
        assert avg == Weighted(cur.avgPrice, cur.qty, f.price, f.qty);
        hide Weighted;
        assert Moved(cur, f) == Some(Position(cur.direction, Abs(newQty), avg));
        positions := positions[f.instrument := Position(cur.direction, Abs(newQty), avg)];
      } else {
        positions := positions[f.instrument := Position(DirectionOf(newQty), Abs(newQty), f.price)];
      }
    }

    /** The loop that leaves out what is below the threshold. */
    method Listing() returns (out: Book)
      ensures out == SimListed(positions)
    {
      out := map[];
      var left := positions.Keys;
      while left != {}
        invariant left <= positions.Keys
        invariant out == map i | i in positions && i !in left && positions[i].qty >= DUST :: positions[i]
      {
        var i :| i in left;
        left := left - {i};
        if positions[i].qty >= DUST {
          out := out[i := positions[i]];
        }
      }
    }
  }

  function Or0(m: map<string, real>, i: string): real {
    if i in m then m[i] else 0.0
  }

  ghost predicate Summed(rows: seq<Row>, lots: map<string, real>, sumPx: map<string, real>) {
    && lots.Keys == sumPx.Keys == Traded(rows)
    && forall i :: i in lots ==> lots[i] == Net(rows, i) && sumPx[i] == Cost(rows, i)
  }

  /** The ledger's two passes: the fills into sums per instrument, the sums into positions. */
  method PositionsFor(rows: seq<Row>) returns (positions: Book)
    ensures positions == LedgerListed(rows)
  {
    var lots, sumPx: map<string, real> := map[], map[];
    assert rows[..0] == [] && Summed([], lots, sumPx);
    hide *;
    for n := 0 to |rows|
      invariant Summed(rows[..n], lots, sumPx)
    {
      OneMore(rows, n, lots, sumPx);
      lots, sumPx := Add(rows[n], lots, sumPx);
    }
    assert rows[..|rows|] == rows;
    positions := Listed(rows, lots, sumPx);
  }

  method Amounts(r: Row) returns (signed: real, cost: real)
    ensures signed == RowSigned(r) && cost == RowCost(r)
  {
    var sign := if r.side == Some(Sell) then -1.0 else 1.0;
    signed := sign * r.qty;
    assert signed == RowSigned(r);
    cost := signed * r.price;
  }

  method Add(r: Row, lots: map<string, real>, sumPx: map<string, real>)
    returns (newLots: map<string, real>, newSumPx: map<string, real>)
    ensures newLots == lots[r.instrument := Or0(lots, r.instrument) + RowSigned(r)]
    ensures newSumPx == sumPx[r.instrument := Or0(sumPx, r.instrument) + RowCost(r)]
  {
    hide RowSigned, RowCost;
    var signed, cost := Amounts(r);
    newLots := lots[r.instrument := (if r.instrument in lots then lots[r.instrument] else 0.0) + signed];
    newSumPx := sumPx[r.instrument := (if r.instrument in sumPx then sumPx[r.instrument] else 0.0) + cost];
  }

  method Listed(ghost rows: seq<Row>, lots: map<string, real>, sumPx: map<string, real>) returns (positions: Book)
    requires Summed(rows, lots, sumPx)
    ensures positions == LedgerListed(rows)
  {
    hide Net, Cost, Traded;
    positions := map[];
    var left := lots.Keys;
    while left != {}
      invariant left <= lots.Keys
      invariant positions.Keys == set i | i in lots && i !in left && OpenIn(rows, i)
      invariant forall i :: i in positions ==> positions[i] == Netted(rows, i)
    {
      var i :| i in left;
      left := left - {i};
      var qty := lots[i];
      if Abs(qty) >= DUST {
        assert OpenIn(rows, i) && qty != 0.0;
        positions := positions[i := Position(if qty > 0.0 then Long else Short, Abs(qty), sumPx[i] / qty)];
      }
    }
  }

  lemma OneMore(rows: seq<Row>, n: nat, lots: map<string, real>, sumPx: map<string, real>)
    requires n < |rows| && Summed(rows[..n], lots, sumPx)
    ensures var i := rows[n].instrument;
      Summed(rows[..n + 1], lots[i := Or0(lots, i) + RowSigned(rows[n])],
             sumPx[i := Or0(sumPx, i) + RowCost(rows[n])])
  {
    var more, fewer, last := rows[..n + 1], rows[..n], rows[n];
    TradedMore(rows, n);
    if last.instrument !in lots {
      Untraded(fewer, last.instrument);
    }
    hide RowSigned, RowCost, Traded, Net, Cost;
    forall i
      ensures Net(more, i) == Net(fewer, i) + if last.instrument == i then RowSigned(last) else 0.0
      ensures Cost(more, i) == Cost(fewer, i) + if last.instrument == i then RowCost(last) else 0.0
    {
      SumsMore(rows, n, i);
    }
  }

  lemma SumsMore(rows: seq<Row>, n: nat, i: string)
    requires n < |rows|
    ensures var more, fewer, last := rows[..n + 1], rows[..n], rows[n];
      && Net(more, i) == Net(fewer, i) + (if last.instrument == i then RowSigned(last) else 0.0)
      && Cost(more, i) == Cost(fewer, i) + if last.instrument == i then RowCost(last) else 0.0
  {
    assert rows[..n + 1][..n] == rows[..n];
    hide RowSigned;
  }

  lemma TradedMore(rows: seq<Row>, n: nat)
    requires n < |rows|
    ensures Traded(rows[..n + 1]) == Traded(rows[..n]) + {rows[n].instrument}
  {
    var more, fewer, last := rows[..n + 1], rows[..n], rows[n];
    forall i
      ensures i in Traded(more) <==> i in Traded(fewer) || i == last.instrument
    {
      if i in Traded(fewer) {
        var k :| 0 <= k < n && fewer[k].instrument == i;
        assert more[k].instrument == i;
      }
      assert more[n].instrument in Traded(more);
    }
  }
}
