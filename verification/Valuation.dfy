/** Customs value: costs shared out over the items, item and header CIF, and how far
    rounding lets them drift apart. */
module Valuation {
  import opened Options
  import opened Text
  import opened Decimals
  import opened DecimalText
  import opened DecimalRoundTrip

  const ZERO := Dec(false, 0, -2)

  // ---- sums --------------------------------------------------------------------------- //

  function SumTo(ds: seq<Dec>, n: nat): Dec
    requires n <= |ds|
  {
    if n == 0 then Dec(false, 0, 0) else Add(SumTo(ds, n - 1), ds[n - 1])
  }

  function Sum(ds: seq<Dec>): Dec { SumTo(ds, |ds|) }

  function TotalTo(ds: seq<Dec>, n: nat): real
    requires n <= |ds|
  {
    if n == 0 then 0.0 else TotalTo(ds, n - 1) + Value(ds[n - 1])
  }

  function Total(ds: seq<Dec>): real { TotalTo(ds, |ds|) }

  predicate Cents(d: Dec) { d.exp == -2 }

  lemma {:induction false} SumValue(ds: seq<Dec>, n: nat)
    requires n <= |ds|
    ensures Value(SumTo(ds, n)) == TotalTo(ds, n)
  {
    if n > 0 {
      SumValue(ds, n - 1);
      AddValue(SumTo(ds, n - 1), ds[n - 1]);
    }
  }

  lemma {:induction false} TotalPrefix(a: seq<Dec>, b: seq<Dec>, n: nat)
    requires n <= |a| && n <= |b| && forall i | 0 <= i < n :: a[i] == b[i]
    ensures TotalTo(a, n) == TotalTo(b, n)
  {
    if n > 0 {
      TotalPrefix(a, b, n - 1);
    }
  }

  lemma {:induction false} TotalUpdate(ds: seq<Dec>, k: nat, d: Dec, n: nat)
    requires k < n <= |ds|
    ensures TotalTo(ds[k := d], n) == TotalTo(ds, n) - Value(ds[k]) + Value(d)
  {
    if k == n - 1 {
      TotalPrefix(ds[k := d], ds, k);
    } else {
      TotalUpdate(ds, k, d, n - 1);
    }
  }

  lemma Q2Close(d: Dec)
    ensures Cents(Q2(d)) && Abs(Value(Q2(d)) - Value(d)) <= 0.005
    ensures d.exp >= -2 ==> Value(Q2(d)) == Value(d)
  {
    QuantizeClose(d, 2);
  }

  /** Sums of cents need no rounding. */
  lemma CentsExact(a: Dec, b: Dec)
    requires Cents(a) && Cents(b)
    ensures Cents(Q2(Add(a, b))) && Value(Q2(Add(a, b))) == Value(a) + Value(b)
  {
    Q2Close(Add(a, b));
    AddValue(a, b);
  }

  // ---- sharing a cost out ----------------------------------------------------------------- //

  /** The first largest share among the first `n`. */
  function LargestTo(shares: seq<Dec>, n: nat): (k: nat)
    requires 0 < n <= |shares|
    ensures k < n
    ensures forall i | 0 <= i < n :: Value(shares[i]) <= Value(shares[k])
    ensures forall i | 0 <= i < k :: Value(shares[i]) < Value(shares[k])
  {
    if n == 1 then 0
    else
      var k := LargestTo(shares, n - 1);
      if Value(shares[n - 1]) > Value(shares[k]) then n - 1 else k
  }

  function Denominator(shares: seq<Dec>): Dec {
    if Sum(shares).coef == 0 then Dec(false, 1, 0) else Sum(shares)
  }

  /** One share, rounded, before the residual. */
  function Share(shares: seq<Dec>, total: Dec, divide: (Dec, Dec) -> Dec, i: nat): Dec
    requires i < |shares|
  {
    Q2(divide(Mul(total, shares[i]), Denominator(shares)))
  }

  /** `allocate_cost`: rounded shares, and what they miss of the total on the largest
      one.  However the quotients round, the shares add up to a total in cents, and
      to within half a cent of any other. */
  method AllocateCost(shares: seq<Dec>, total: Dec, divide: (Dec, Dec) -> Dec) returns (alloc: seq<Dec>)
    ensures |alloc| == |shares| && forall i | 0 <= i < |alloc| :: Cents(alloc[i])
    ensures total.coef == 0 ==> forall i | 0 <= i < |alloc| :: alloc[i] == ZERO
    ensures total.coef != 0 && shares != [] ==>
      forall i | 0 <= i < |alloc| && i != LargestTo(shares, |shares|) :: alloc[i] == Share(shares, total, divide, i)
    ensures shares != [] ==> Abs(Total(alloc) - Value(total)) <= 0.005
    ensures shares != [] && total.exp >= -2 ==> Total(alloc) == Value(total)
  {
    if shares == [] || total.coef == 0 {
      alloc := seq(|shares|, _ => ZERO);
      ZeroTotal(alloc, |alloc|);
      ZeroValue(total);
      return;
    }
    alloc := [];
    for n := 0 to |shares|
      invariant |alloc| == n
      invariant forall i | 0 <= i < n :: alloc[i] == Share(shares, total, divide, i)
    {
      alloc := alloc + [Share(shares, total, divide, n)];
    }
    ghost var before := alloc;
    var residual := Q2(Sub(total, Sum(alloc)));
    var k := LargestTo(shares, |shares|);
    alloc := alloc[k := Q2(Add(alloc[k], residual))];
    ResidualRestores(before, total, k);
  }

  /** A share before the residual is, to half a cent, the part of the total that the item
      has in all shares, or the product itself if they add up to nothing; `error` is how
      far the quotient may be off. */
  lemma ShareClose(shares: seq<Dec>, total: Dec, divide: (Dec, Dec) -> Dec, i: nat, error: real)
    requires i < |shares|
    requires var whole := if Total(shares) == 0.0 then 1.0 else Total(shares);
      forall x, y | Value(x) == Product(Value(total), Value(shares[i])) && Value(y) == whole ::
        Abs(Value(divide(x, y)) - Product(Value(total), Value(shares[i])) / whole) <= error
    ensures var whole := if Total(shares) == 0.0 then 1.0 else Total(shares);
      && Cents(Share(shares, total, divide, i))
      && Abs(Value(Share(shares, total, divide, i)) - Product(Value(total), Value(shares[i])) / whole) <= error + 0.005
  {
    DenominatorValue(shares);
    MulValue(total, shares[i]);
    TimesIsProduct(Value(total), shares[i]);
    Q2Close(divide(Mul(total, shares[i]), Denominator(shares)));
    hide Value, Q2, Mul, Product, TimesValue, Denominator;
  }

  lemma DenominatorValue(shares: seq<Dec>)
    ensures Value(Denominator(shares)) == if Total(shares) == 0.0 then 1.0 else Total(shares)
  {
    SumValue(shares, |shares|);
    var sum := Sum(shares);
    ZeroValue(sum);
    if sum.coef != 0 {
      ScaleSign(sum.coef as real, sum.exp);
      assert Signed(sum) as real == if sum.neg then -(sum.coef as real) else sum.coef as real;
    }
  }

  lemma {:induction false} ZeroTotal(ds: seq<Dec>, n: nat)
    requires n <= |ds| && forall i | 0 <= i < n :: ds[i] == ZERO
    ensures TotalTo(ds, n) == 0.0
  {
    if n > 0 {
      ZeroTotal(ds, n - 1);
      ZeroValue(ZERO);
    }
  }

  lemma ZeroValue(d: Dec)
    ensures d.coef == 0 ==> Value(d) == 0.0
  {
    if d.coef == 0 {
      ScaleAdd(0.0, 0.0, d.exp);
    }
  }

  lemma ResidualRestores(ds: seq<Dec>, total: Dec, k: nat)
    requires k < |ds| && forall i | 0 <= i < |ds| :: Cents(ds[i])
    ensures var after := ds[k := Q2(Add(ds[k], Q2(Sub(total, Sum(ds)))))];
      && Abs(Total(after) - Value(total)) <= 0.005
      && (total.exp >= -2 ==> Total(after) == Value(total))
  {
    var residual := Q2(Sub(total, Sum(ds)));
    SumExp(ds, |ds|);
    SumValue(ds, |ds|);
    SubValue(total, Sum(ds));
    Q2Close(Sub(total, Sum(ds)));
    CentsExact(ds[k], residual);
    TotalUpdate(ds, k, Q2(Add(ds[k], residual)), |ds|);
  }

  lemma {:induction false} SumExp(ds: seq<Dec>, n: nat)
    requires n <= |ds| && forall i | 0 <= i < n :: ds[i].exp >= -2
    ensures SumTo(ds, n).exp >= -2
  {
    if n > 0 {
      SumExp(ds, n - 1);
    }
  }

  // ---- items and header ----------------------------------------------------------------------- //

  /** What valuation reads of an item: its line total and allocated costs. */
  datatype Line = Line(lineTotal: Dec, freight: Dec, insurance: Dec)

  datatype ItemValue = ItemValue(goods: Dec, freight: Dec, insurance: Dec, cost: Dec, cif: Dec, text: string)

  datatype HeaderValue = HeaderValue(goods: Dec, freight: Dec, insurance: Dec, cost: Dec, cif: Dec)

  /** The parts of a CIF value: goods and freight in national currency, insurance. */
  function Header(goods: Dec, freight: Dec, insurance: Dec, rate: Dec): HeaderValue {
    var g, f, i := Q2(Mul(goods, rate)), Q2(Mul(freight, rate)), Q2(insurance);
    var cost := Q2(Add(f, i));
    HeaderValue(g, f, i, cost, Q2(Add(g, cost)))
  }

  /** "extF+intF+ins+other-ded". */
  function ValueItem(freight: Dec, insurance: Dec): string {
    FmtThousands2(freight) + "+0.00+" + FmtThousands2(insurance) + "+0.00-0.00"
  }

  function ItemOf(line: Line, rate: Dec): ItemValue {
    var h := Header(line.lineTotal, line.freight, line.insurance, rate);
    ItemValue(h.goods, h.freight, h.insurance, h.cost, h.cif, ValueItem(h.freight, h.insurance))
  }

  /** `Total_CIF_itm / Total_CIF`, before it is printed. */
  function Alpha(item: ItemValue, header: HeaderValue): real {
    if Value(header.cif) > 0.0 then Value(item.cif) / Value(header.cif) else 0.0
  }

  /** `v` is an amount in cents, half a cent at most from `amount` times `rate`. */
  ghost predicate Converts(v: Dec, amount: Dec, rate: Dec) {
    Cents(v) && Abs(Value(v) - Product(Value(amount), Value(rate))) <= 0.005
  }

  ghost predicate Rounds(v: Dec, amount: Dec) {
    Cents(v) && Abs(Value(v) - Value(amount)) <= 0.005
  }

  /** The text is four numbers and a deduction, of which only `a` and `b` are not 0. */
  predicate Laid(text: string, a: string, b: string) {
    text == a + "+0.00+" + b + "+0.00-0.00" && '+' !in a && '+' !in b
  }

  /** The part of the text before its first `+` reads as the freight, the part between
      its second and third as the insurance. */
  ghost predicate Itemises(text: string, freight: Dec, insurance: Dec) {
    exists a: string, b: string :: (
      && Laid(text, a, b)
      && ParseDecimal(Token(a), NoHint) == Some(freight)
      && ParseDecimal(Token(b), NoHint) == Some(insurance))
  }

  /** Each part of an item or header value comes from its own amount. */
  ghost predicate Valued(goods: Dec, freight: Dec, insurance: Dec, rate: Dec,
                         g: Dec, f: Dec, i: Dec, cost: Dec, cif: Dec) {
    && Converts(g, goods, rate)
    && Converts(f, freight, rate)
    && Rounds(i, insurance)
    && Value(cost) == Value(f) + Value(i)
    && Value(cif) == Value(g) + Value(f) + Value(i)
  }

  /** So for an item and its line; its text tells the two costs apart. */
  ghost predicate ItemValued(line: Line, rate: Dec, item: ItemValue) {
    && Valued(line.lineTotal, line.freight, line.insurance, rate,
              item.goods, item.freight, item.insurance, item.cost, item.cif)
    && Itemises(item.text, item.freight, item.insurance)
  }

  lemma TimesIsProduct(x: real, r: Dec)
    ensures TimesValue(x, r) == Product(x, Value(r))
  {
    ScaleTimes(Signed(r) as real, x, r.exp);
    assert Product(x, Signed(r) as real) == Product(Signed(r) as real, x);
  }

  lemma CentsStay(d: Dec)
    ensures Cents(d) ==> Q2(d) == d
  {
    assert Pow10(0) == 1;
  }

  lemma HeaderIsValued(goods: Dec, freight: Dec, insurance: Dec, rate: Dec)
    ensures var h := Header(goods, freight, insurance, rate);
      Valued(goods, freight, insurance, rate, h.goods, h.freight, h.insurance, h.cost, h.cif)
  {
    ConvertClose(goods, rate);
    ConvertClose(freight, rate);
    TimesIsProduct(Value(goods), rate);
    TimesIsProduct(Value(freight), rate);
    Q2Close(Mul(goods, rate));
    Q2Close(Mul(freight, rate));
    Q2Close(insurance);
    CentsExact(Q2(Mul(freight, rate)), Q2(insurance));
    CifExact(goods, freight, insurance, rate);
    hide Value, Q2, Mul, Add, Abs, Product, TimesValue;
  }

  lemma ItemIsValued(line: Line, rate: Dec)
    ensures ItemValued(line, rate, ItemOf(line, rate))
  {
    HeaderIsValued(line.lineTotal, line.freight, line.insurance, rate);
    var item := ItemOf(line, rate);
    TextItemises(item.freight, item.insurance);
    hide Valued, Itemises, Header, ValueItem;
  }

  lemma TextItemises(f: Dec, i: Dec)
    requires Cents(f) && Cents(i)
    ensures Itemises(ValueItem(f, i), f, i)
  {
    ThousandsRoundTrip(f, NoHint);
    ThousandsRoundTrip(i, NoHint);
    CentsStay(f);
    CentsStay(i);
    MoneyPlusless(f);
    MoneyPlusless(i);
    hide ParseDecimal, FmtThousands2, Q2;
    assert Laid(ValueItem(f, i), FmtThousands2(f), FmtThousands2(i));
  }

  method BuildItems(lines: seq<Line>, rate: Dec) returns (items: seq<ItemValue>)
    ensures |items| == |lines| && forall i | 0 <= i < |items| :: items[i] == ItemOf(lines[i], rate)
    ensures forall i | 0 <= i < |items| :: ItemValued(lines[i], rate, items[i])
  {
    hide ItemOf, ItemValued;
    items := [];
    for n := 0 to |lines|
      invariant |items| == n
      invariant forall i | 0 <= i < n :: items[i] == ItemOf(lines[i], rate)
      invariant forall i | 0 <= i < n :: ItemValued(lines[i], rate, items[i])
    {
      ItemIsValued(lines[n], rate);
      items := items + [ItemOf(lines[n], rate)];
    }
  }

  /** A CIF value is exactly the sum of its three rounded parts. */
  lemma CifExact(goods: Dec, freight: Dec, insurance: Dec, rate: Dec)
    ensures var h := Header(goods, freight, insurance, rate);
      Value(h.cif) == Value(Q2(Mul(goods, rate))) + Value(Q2(Mul(freight, rate))) + Value(Q2(insurance))
  {
    Q2Close(Mul(goods, rate));
    Q2Close(Mul(freight, rate));
    Q2Close(insurance);
    var f, i := Q2(Mul(freight, rate)), Q2(insurance);
    CentsExact(f, i);
    CentsExact(Q2(Mul(goods, rate)), Q2(Add(f, i)));
  }

  /** Converting to national currency is within half a cent of the exact product. */
  lemma ConvertClose(d: Dec, rate: Dec)
    ensures Abs(Value(Q2(Mul(d, rate))) - TimesValue(Value(d), rate)) <= 0.005
  {
    Q2Close(Mul(d, rate));
    MulValue(d, rate);
  }

  /** So is, per line, a sum of conversions of the converted sum. */
  lemma {:induction false} ConvertedSum(ds: seq<Dec>, rate: Dec, n: nat)
    requires n <= |ds|
    ensures Abs(ConvertedTo(ds, rate, n) - TimesValue(TotalTo(ds, n), rate)) <= 0.005 * n as real
  {
    if n == 0 {
      ScaleAdd(0.0, 0.0, rate.exp);
      assert Product(0.0, Signed(rate) as real) == 0.0;
    } else {
      ConvertedSum(ds, rate, n - 1);
      ConvertClose(ds[n - 1], rate);
      TimesValueAdd(TotalTo(ds, n - 1), Value(ds[n - 1]), rate);
    }
  }

  function ConvertedTo(ds: seq<Dec>, rate: Dec, n: nat): real
    requires n <= |ds|
  {
    if n == 0 then 0.0 else ConvertedTo(ds, rate, n - 1) + Value(Q2(Mul(ds[n - 1], rate)))
  }

  function LineTotals(lines: seq<Line>): (ds: seq<Dec>)
    ensures |ds| == |lines|
  {
    seq(|lines|, i requires 0 <= i < |lines| => lines[i].lineTotal)
  }

  function Freights(lines: seq<Line>): (ds: seq<Dec>)
    ensures |ds| == |lines|
  {
    seq(|lines|, i requires 0 <= i < |lines| => lines[i].freight)
  }

  function Insurances(lines: seq<Line>): (ds: seq<Dec>)
    ensures |ds| == |lines|
  {
    seq(|lines|, i requires 0 <= i < |lines| => lines[i].insurance)
  }

  /** The item CIF values of the first `n` lines. */
  function ItemCifTo(lines: seq<Line>, rate: Dec, n: nat): real
    requires n <= |lines|
  {
    if n == 0 then 0.0 else ItemCifTo(lines, rate, n - 1) + Value(ItemOf(lines[n - 1], rate).cif)
  }

  lemma {:induction false} ItemCifParts(lines: seq<Line>, rate: Dec, n: nat)
    requires n <= |lines| && forall i | 0 <= i < |lines| :: Cents(lines[i].insurance)
    ensures ItemCifTo(lines, rate, n)
         == ConvertedTo(LineTotals(lines), rate, n) + ConvertedTo(Freights(lines), rate, n)
            + TotalTo(Insurances(lines), n)
  {
    hide Value;
    hide Q2;
    hide Add;
    hide Mul;
    if n > 0 {
      ItemCifParts(lines, rate, n - 1);
      var line := lines[n - 1];
      CifExact(line.lineTotal, line.freight, line.insurance, rate);
      Q2Close(line.insurance);
    }
  }

  /** What the allocators leave behind: line totals that add up to the goods total,
      and costs in cents shared out over the lines (`AllocateCost`). */
  ghost predicate Allocated(lines: seq<Line>, goods: Dec, freight: Dec, insurance: Dec) {
    && lines != []
    && Total(LineTotals(lines)) == Value(goods)
    && Total(Freights(lines)) == Value(freight)
    && (forall i | 0 <= i < |lines| :: Cents(lines[i].insurance))
    && Abs(Total(Insurances(lines)) - Value(insurance)) <= 0.005
  }

  /** The item CIF values add up to the header's within 0.015 for each line and once
      more. */
  lemma CifBound(lines: seq<Line>, goods: Dec, freight: Dec, insurance: Dec, rate: Dec)
    requires Allocated(lines, goods, freight, insurance)
    ensures Abs(ItemCifTo(lines, rate, |lines|) - Value(Header(goods, freight, insurance, rate).cif))
         <= 0.015 * (|lines| + 1) as real
  {
    hide Value;
    hide Q2;
    hide Add;
    hide Mul;
    hide TimesValue;
    hide Header;
    hide ItemOf;
    hide LineTotals;
    hide Freights;
    hide Insurances;
    hide TotalTo;
    hide ConvertedTo;
    hide ItemCifTo;
    var n := |lines|;
    ItemCifParts(lines, rate, n);
    ConvertedSum(LineTotals(lines), rate, n);
    ConvertedSum(Freights(lines), rate, n);
    ConvertClose(goods, rate);
    ConvertClose(freight, rate);
    Q2Close(insurance);
    CifExact(goods, freight, insurance, rate);
    assert (n + 1) as real == n as real + 1.0;
  }

  function AlphaTo(lines: seq<Line>, rate: Dec, header: HeaderValue, n: nat): real
    requires n <= |lines|
  {
    if n == 0 then 0.0 else AlphaTo(lines, rate, header, n - 1) + Alpha(ItemOf(lines[n - 1], rate), header)
  }

  lemma {:induction false} AlphaIsRatio(lines: seq<Line>, rate: Dec, header: HeaderValue, n: nat)
    requires n <= |lines| && Value(header.cif) > 0.0
    ensures Product(AlphaTo(lines, rate, header, n), Value(header.cif)) == ItemCifTo(lines, rate, n)
  {
    hide Value;
    hide ItemOf;
    hide Product;
    if n == 0 {
      ProductAdd(0.0, 0.0, Value(header.cif));
    } else {
      AlphaIsRatio(lines, rate, header, n - 1);
      var alpha := Alpha(ItemOf(lines[n - 1], rate), header);
      ProductAdd(AlphaTo(lines, rate, header, n - 1), alpha, Value(header.cif));
      QuotientTimes(Value(ItemOf(lines[n - 1], rate).cif), Value(header.cif));
    }
  }

  /** A header without a positive CIF has no coefficients to share. */
  lemma {:induction false} NoCifNoAlphas(lines: seq<Line>, rate: Dec, header: HeaderValue, n: nat)
    requires n <= |lines| && Value(header.cif) <= 0.0
    ensures AlphaTo(lines, rate, header, n) == 0.0
  {
    if n > 0 {
      NoCifNoAlphas(lines, rate, header, n - 1);
    }
  }

  lemma QuotientTimes(x: real, c: real)
    requires c > 0.0
    ensures Product(x / c, c) == x
  {
  }

  lemma QuotientBound(x: real, c: real, bound: real)
    requires c > 0.0
    ensures x * c <= bound ==> x <= bound / c
  {
    assert bound / c * c == bound;
    if x > bound / c {
      assert (x - bound / c) * c > 0.0;
    }
  }

  lemma CloseRatio(a: real, c: real, bound: real)
    requires c > 0.0 && Abs(Product(a, c) - c) <= bound
    ensures Abs(a - 1.0) <= bound / c
  {
    QuotientBound(a - 1.0, c, bound);
    QuotientBound(1.0 - a, c, bound);
    assert (a - 1.0) * c == Product(a, c) - c && (1.0 - a) * c == c - Product(a, c);
  }

  /** The alpha coefficients add up to 1 within that bound, relative to the CIF. */
  lemma AlphasAddUp(lines: seq<Line>, goods: Dec, freight: Dec, insurance: Dec, rate: Dec)
    requires Allocated(lines, goods, freight, insurance)
    requires Value(Header(goods, freight, insurance, rate).cif) > 0.0
    ensures var header := Header(goods, freight, insurance, rate);
      Abs(AlphaTo(lines, rate, header, |lines|) - 1.0) <= 0.015 * (|lines| + 1) as real / Value(header.cif)
  {
    hide *;
    var header := Header(goods, freight, insurance, rate);
    CifBound(lines, goods, freight, insurance, rate);
    AlphaIsRatio(lines, rate, header, |lines|);
    CloseRatio(AlphaTo(lines, rate, header, |lines|), Value(header.cif), 0.015 * (|lines| + 1) as real);
  }

  /** The valuation steps of `finalize`: freight in cents and insurance shared out,
      then items and header. */
  method Valuate(lineTotals: seq<Dec>, shares: seq<Dec>, goods: Dec, freight: Dec, insurance: Dec, rate: Dec,
                 divide: (Dec, Dec) -> Dec)
    returns (lines: seq<Line>, items: seq<ItemValue>, header: HeaderValue)
    requires |shares| == |lineTotals|
    ensures |lines| == |items| == |lineTotals|
    ensures forall i | 0 <= i < |lines| :: lines[i].lineTotal == lineTotals[i] && items[i] == ItemOf(lines[i], rate)
    ensures header == Header(goods, Q2(freight), insurance, rate)
    ensures forall i | 0 <= i < |lines| :: ItemValued(lines[i], rate, items[i])
    ensures Valued(goods, Q2(freight), insurance, rate,
                   header.goods, header.freight, header.insurance, header.cost, header.cif)
    ensures Rounds(Q2(freight), freight)
    ensures forall i | 0 <= i < |lines| && i != LargestTo(shares, |shares|) ::
      && (Q2(freight).coef != 0 ==> lines[i].freight == Share(shares, Q2(freight), divide, i))
      && (insurance.coef != 0 ==> lines[i].insurance == Share(shares, insurance, divide, i))
    ensures shares != [] ==> Total(Freights(lines)) == Value(Q2(freight))
    ensures shares != [] ==> Abs(Total(Insurances(lines)) - Value(insurance)) <= 0.005
    ensures lineTotals != [] && Total(lineTotals) == Value(goods) ==>
      && Allocated(lines, goods, Q2(freight), insurance)
      && Abs(ItemCifTo(lines, rate, |lines|) - Value(header.cif)) <= 0.015 * (|lines| + 1) as real
  {
    hide Value;
    hide Q2;
    hide Header;
    hide ItemOf;
    hide ItemValued, Valued;
    hide TotalTo;
    Q2Close(freight);
    var freights := AllocateCost(shares, Q2(freight), divide);
    var insurances := AllocateCost(shares, insurance, divide);
    lines := seq(|lineTotals|, i requires 0 <= i < |lineTotals| => Line(lineTotals[i], freights[i], insurances[i]));
    items := BuildItems(lines, rate);
    header := Header(goods, Q2(freight), insurance, rate);
    HeaderIsValued(goods, Q2(freight), insurance, rate);
    assert LineTotals(lines) == lineTotals && Freights(lines) == freights && Insurances(lines) == insurances;
    if lineTotals != [] && Total(lineTotals) == Value(goods) {
      CifBound(lines, goods, Q2(freight), insurance, rate);
    }
  }

  // ---- Value_item ------------------------------------------------------------------------------- //

  predicate Signless(s: string) { forall i | 0 <= i < |s| :: s[i] != '+' && s[i] != '-' }

  function Combine(a: Option<Dec>, sign: char, b: Option<Dec>): Option<Dec> {
    match (a, b)
    case (Some(x), Some(y)) => Some(if sign == '-' then Sub(x, y) else Add(x, y))
    case _ => None
  }

  /** Reading "a+b-c" from the right: its parts parsed, added and subtracted. */
  function Evaluate(s: string): Option<Dec>
    decreases |s|
  {
    var plus, minus := RFind(s, '+'), RFind(s, '-');
    var k := if plus < minus then minus else plus;
    if k < 0 then ParseDecimal(Token(s), NoHint)
    else Combine(Evaluate(s[..k]), s[k], ParseDecimal(Token(s[k + 1..]), NoHint))
  }

  lemma EvaluateAppend(a: string, sign: char, b: string)
    requires (sign == '+' || sign == '-') && Signless(b)
    ensures Evaluate(a + [sign] + b) == Combine(Evaluate(a), sign, ParseDecimal(Token(b), NoHint))
  {
    hide ParseDecimal;
    hide Combine;
    var s := a + [sign] + b;
    var plus, minus := RFind(s, '+'), RFind(s, '-');
    assert s[|a|] == sign;
    assert if sign == '+' then minus < plus == |a| else plus < minus == |a|;
    assert s[..|a|] == a && s[|a| + 1..] == b;
  }

  lemma EvaluatePart(s: string)
    requires Signless(s)
    ensures Evaluate(s) == ParseDecimal(Token(s), NoHint)
  {
    hide ParseDecimal;
  }

  lemma MoneyPlusless(v: Dec)
    ensures '+' !in FmtThousands2(v)
  {
    var q := Q2(v);
    PartsOf(q.coef, 2);
    GroupOf(WholeText(q.coef, 2));
    MoneyText(v);
  }

  lemma MoneySignless(v: Dec)
    requires !v.neg
    ensures Signless(FmtThousands2(v))
  {
    var q := Q2(v);
    PartsOf(q.coef, 2);
    GroupOf(WholeText(q.coef, 2));
    MoneyText(v);
  }

  lemma ZeroText()
    ensures FmtThousands2(ZERO) == "0.00" && Q2(ZERO) == ZERO
  {
    assert Pow10(0) == 1 && Pow10(2) == 100 by {
      assert Pow10(1) == 10;
    }
    assert Q2(ZERO) == ZERO;
    assert Digits(0, 1) == "0" && Digits(0, 2) == "00";
    MoneyText(ZERO);
  }

  /** Adding and subtracting a zero keeps the value. */
  lemma PlusZero(d: Dec)
    ensures Value(Add(d, ZERO)) == Value(d) && Value(Sub(d, ZERO)) == Value(d)
  {
    AddValue(d, ZERO);
    SubValue(d, ZERO);
    ZeroValue(ZERO);
  }

  /** The parts of `Value_item`, parsed and added up, are the item's total cost. */
  lemma ValueItemAddsUp(line: Line, rate: Dec)
    requires !ItemOf(line, rate).freight.neg && !ItemOf(line, rate).insurance.neg
    ensures Evaluate(ItemOf(line, rate).text).Some?
    ensures Value(Evaluate(ItemOf(line, rate).text).value) == Value(ItemOf(line, rate).cost)
  {
    var item := ItemOf(line, rate);
    PartsAddUp(item.freight, item.insurance);
    hide *;
  }

  lemma PartsAddUp(f: Dec, i: Dec)
    requires Cents(f) && Cents(i) && !f.neg && !i.neg
    ensures Evaluate(ValueItem(f, i)).Some?
    ensures Value(Evaluate(ValueItem(f, i)).value) == Value(f) + Value(i)
  {
    EvaluatesTo(f, i);
    Q2Close(f);
    Q2Close(i);
    PlusZero(Q2(f));
    AddValue(Add(Q2(f), ZERO), Q2(i));
    PlusZero(Add(Add(Q2(f), ZERO), Q2(i)));
    PlusZero(Add(Add(Add(Q2(f), ZERO), Q2(i)), ZERO));
    hide *;
  }

  lemma EvaluatesTo(f: Dec, i: Dec)
    requires !f.neg && !i.neg
    ensures Evaluate(ValueItem(f, i)) == Some(Sub(Add(Add(Add(Q2(f), ZERO), Q2(i)), ZERO), ZERO))
  {
    hide ParseDecimal;
    hide FmtThousands2;
    hide Evaluate;
    hide Q2;
    hide Add;
    hide Sub;
    ZeroText();
    ThousandsRoundTrip(ZERO, NoHint);
    ThousandsRoundTrip(f, NoHint);
    ThousandsRoundTrip(i, NoHint);
    MoneySignless(f);
    MoneySignless(i);
    var a := FmtThousands2(f);
    EvaluatePart(a);
    EvaluateAppend(a, '+', "0.00");
    var b := a + ['+'] + "0.00";
    EvaluateAppend(b, '+', FmtThousands2(i));
    var c := b + ['+'] + FmtThousands2(i);
    EvaluateAppend(c, '+', "0.00");
    EvaluateAppend(c + ['+'] + "0.00", '-', "0.00");
    assert ValueItem(f, i) == c + ['+'] + "0.00" + ['-'] + "0.00";
  }
}
