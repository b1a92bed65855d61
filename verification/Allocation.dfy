/**
 Where a payment goes (packages/core/billing/allocation.ts). Amounts are integer cents; `le` stands
 for `localeCompare(...) <= 0` on invoice ids.
 */
module Allocation {
  import opened Wrappers
  import opened Sorting

  datatype Category = Tax | Fee | Protection | Rent

  const CATEGORIES := [Tax, Fee, Protection, Rent]

  datatype Claim = Claim(invoiceId: string, category: Category, outstanding: int, dueDate: int)

  datatype Line = Line(invoiceId: string, category: Category, amount: int)

  datatype Allocation = Allocation(lines: seq<Line>, unapplied: int)

  // ---------------------------------------------------------------- the queue of claims

  /** The facility's order as a map: of two entries for a category the later one stands. */
  function Ranks(order: seq<Category>): (r: map<Category, nat>)
    ensures forall c :: c in r ==> r[c] < |order| && order[r[c]] == c
    ensures forall c :: c in order <==> c in r
  {
    if order == [] then map[]
    else Ranks(order[..|order| - 1])[order[|order| - 1] := |order| - 1]
  }

  /** A category left out of the order comes last. */
  function RankOf(order: seq<Category>, c: Category): nat {
    if c in Ranks(order) then Ranks(order)[c] else |order|
  }

  predicate Before(order: seq<Category>, le: Rank<string>, a: Claim, b: Claim) {
    var byCategory := RankOf(order, a.category) - RankOf(order, b.category);
    if byCategory != 0 then byCategory < 0
    else if a.dueDate != b.dueDate then a.dueDate < b.dueDate
    else le(a.invoiceId, b.invoiceId)
  }

  function ByClaim(order: seq<Category>, le: Rank<string>): Rank<Claim> {
    (a: Claim, b: Claim) => Before(order, le, a, b)
  }

  function Owing(targets: seq<Claim>): seq<Claim> {
    if targets == [] then []
    else if targets[0].outstanding > 0 then [targets[0]] + Owing(targets[1..])
    else Owing(targets[1..])
  }

  lemma {:induction false} OwingKeepsWhatIsOwed(targets: seq<Claim>)
    ensures forall c :: c in Owing(targets) <==> c in targets && c.outstanding > 0
  {
    if targets != [] {
      OwingKeepsWhatIsOwed(targets[1..]);
    }
  }

  function Queue(targets: seq<Claim>, order: seq<Category>, le: Rank<string>): seq<Claim> {
    Sort(Owing(targets), ByClaim(order, le))
  }

  ghost predicate AllOwing(claims: seq<Claim>) {
    forall k :: 0 <= k < |claims| ==> claims[k].outstanding > 0
  }

  lemma QueueOwes(targets: seq<Claim>, order: seq<Category>, le: Rank<string>)
    ensures AllOwing(Queue(targets, order, le))
  {
    OwingKeepsWhatIsOwed(targets);
    SortPermutes(Owing(targets), ByClaim(order, le));
    SameElements(Queue(targets, order, le), Owing(targets));
  }

  // ---------------------------------------------------------------- paying the queue

  function Owed(claims: seq<Claim>): int {
    if claims == [] then 0 else claims[0].outstanding + Owed(claims[1..])
  }

  function Total(lines: seq<Line>): int {
    if lines == [] then 0 else lines[0].amount + Total(lines[1..])
  }

  function Pay(amount: int, claims: seq<Claim>): (r: seq<Line>)
    ensures |r| <= |claims|
    decreases |claims|
  {
    if claims == [] || amount <= 0 then []
    else
      var applied := Min(amount, claims[0].outstanding);
      [Line(claims[0].invoiceId, claims[0].category, applied)] + Pay(amount - applied, claims[1..])
  }

  function Allocate(amount: int, targets: seq<Claim>, order: seq<Category>, le: Rank<string>): Allocation {
    var claims := Queue(targets, order, le);
    Allocation(Pay(amount, claims), Max(0, amount - Owed(claims)))
  }

  lemma {:induction false} OwedIsNotNegative(claims: seq<Claim>)
    requires AllOwing(claims)
    ensures Owed(claims) >= 0
  {
    if claims != [] {
      OwedIsNotNegative(claims[1..]);
    }
  }

  /** The loop's invariant: what is on the lines and what the rest of the queue would get make up the whole payment. */
  ghost predicate OnCourse(amount: int, claims: seq<Claim>, i: nat, lines: seq<Line>, remaining: int)
    requires i <= |claims|
  {
    && lines + Pay(remaining, claims[i..]) == Pay(amount, claims)
    && Max(0, remaining - Owed(claims[i..])) == Max(0, amount - Owed(claims))
  }

  lemma PayStep(amount: int, claims: seq<Claim>, i: nat, lines: seq<Line>, remaining: int)
    requires AllOwing(claims) && i < |claims| && remaining > 0 && OnCourse(amount, claims, i, lines, remaining)
    ensures var claim := claims[i];
            var applied := Min(remaining, claim.outstanding);
            OnCourse(amount, claims, i + 1, lines + [Line(claim.invoiceId, claim.category, applied)], remaining - applied)
  {
    assert claims[i..][1..] == claims[i + 1..];
    OwedIsNotNegative(claims[i + 1..]);
  }

  lemma PayDone(amount: int, claims: seq<Claim>, i: nat, lines: seq<Line>, remaining: nat)
    requires AllOwing(claims) && i <= |claims| && OnCourse(amount, claims, i, lines, remaining)
    requires i == |claims| || remaining == 0
    ensures lines == Pay(amount, claims) && remaining == Max(0, amount - Owed(claims))
  {
    OwedIsNotNegative(claims[i..]);
    assert lines + [] == lines;
  }

  method AllocatePayment(amount: int, targets: seq<Claim>, order: seq<Category>, le: Rank<string>)
    returns (r: Allocation)
    ensures r == Allocate(amount, targets, order, le)
  {
    var claims := Queue(targets, order, le);
    QueueOwes(targets, order, le);
    OwedIsNotNegative(claims);
    if amount <= 0 {
      return Allocation([], Max(0, amount));
    }
    r := PayDown(amount, claims);
  }

  /** The loop: pay claim after claim until the money runs out. */
  method PayDown(amount: int, claims: seq<Claim>) returns (r: Allocation)
    requires amount > 0 && AllOwing(claims)
    ensures r == Allocation(Pay(amount, claims), Max(0, amount - Owed(claims)))
  {
    var lines: seq<Line>, remaining := [], amount;
    var i := 0;
    assert claims[0..] == claims;
    while i < |claims| && remaining > 0
      invariant 0 <= i <= |claims| && remaining >= 0
      invariant OnCourse(amount, claims, i, lines, remaining)
    {
      var claim := claims[i];
      PayStep(amount, claims, i, lines, remaining);
      var applied := Min(remaining, claim.outstanding);
      lines := lines + [Line(claim.invoiceId, claim.category, applied)];
      remaining := remaining - applied;
      i := i + 1;
    }
    PayDone(amount, claims, i, lines, remaining);
    r := Allocation(lines, remaining);
  }

  // ---------------------------------------------------------------- where the money goes

  function PaidAt(lines: seq<Line>, k: nat): int {
    if k < |lines| then lines[k].amount else 0
  }

  /** Every cent is on a line or unapplied. */
  lemma {:induction false} PayConserves(amount: int, claims: seq<Claim>)
    requires AllOwing(claims)
    ensures Total(Pay(amount, claims)) + Max(0, amount - Owed(claims)) == Max(0, amount)
  {
    OwedIsNotNegative(claims);
    if claims != [] && amount > 0 {
      PayConserves(amount - Min(amount, claims[0].outstanding), claims[1..]);
      OwedIsNotNegative(claims[1..]);
    }
  }

  /** What each claim gets: whatever is left after the claims before it, up to what it asks. */
  lemma {:induction false} PayClosedForm(amount: int, claims: seq<Claim>, k: nat)
    requires AllOwing(claims) && k < |claims|
    ensures PaidAt(Pay(amount, claims), k) == Max(0, Min(amount - Owed(claims[..k]), claims[k].outstanding))
    ensures k < |Pay(amount, claims)| ==>
              var line := Pay(amount, claims)[k];
              line.invoiceId == claims[k].invoiceId && line.category == claims[k].category && line.amount > 0
  {
    OwedIsNotNegative(claims[..k]);
    if amount > 0 && k > 0 {
      PayClosedForm(amount - Min(amount, claims[0].outstanding), claims[1..], k - 1);
      assert claims[..k][1..] == claims[1..][..k - 1];
      OwedIsNotNegative(claims[1..][..k - 1]);
    }
  }

  lemma {:induction false} EarlierClaimsFirst(amount: int, claims: seq<Claim>, i: nat, j: nat)
    requires AllOwing(claims) && i < j < |claims| && PaidAt(Pay(amount, claims), j) > 0
    ensures PaidAt(Pay(amount, claims), i) == claims[i].outstanding
  {
    var left := amount - Min(amount, claims[0].outstanding);
    if i > 0 {
      EarlierClaimsFirst(left, claims[1..], i - 1, j - 1);
    }
  }

  lemma {:induction false} SurplusMeansAllPaid(amount: int, claims: seq<Claim>, k: nat)
    requires AllOwing(claims) && k < |claims| && amount >= Owed(claims)
    ensures PaidAt(Pay(amount, claims), k) == claims[k].outstanding
  {
    OwedIsNotNegative(claims[1..]);
    if k > 0 {
      SurplusMeansAllPaid(amount - claims[0].outstanding, claims[1..], k - 1);
    }
  }

  lemma BeforeIsPreorder(order: seq<Category>, le: Rank<string>)
    requires TotalPreorder(le)
    ensures TotalPreorder(ByClaim(order, le))
  {
    var rank := ByClaim(order, le);
    forall a, b, c | rank(a, b) && rank(b, c) ensures rank(a, c) {
      assert Before(order, le, a, b) && Before(order, le, b, c);
      assert Before(order, le, a, c);
    }
    forall a, b ensures rank(a, b) || rank(b, a) {
      assert Before(order, le, a, b) || Before(order, le, b, a);
    }
  }

  /**
   No claim gets more than it asks, none gets a cent while an earlier one is short, and money is
   left over only once everything is paid.
   */
  ghost predicate Fair(r: Allocation, queue: seq<Claim>) {
    && (forall k :: 0 <= k < |queue| ==> 0 <= PaidAt(r.lines, k) <= queue[k].outstanding)
    && (forall i, j :: 0 <= i < j < |queue| && PaidAt(r.lines, j) > 0 ==>
          PaidAt(r.lines, i) == queue[i].outstanding)
    && (r.unapplied > 0 ==> forall k :: 0 <= k < |queue| ==> PaidAt(r.lines, k) == queue[k].outstanding)
  }

  lemma PayIsFair(amount: int, queue: seq<Claim>)
    requires AllOwing(queue)
    ensures Fair(Allocation(Pay(amount, queue), Max(0, amount - Owed(queue))), queue)
  {
    var lines := Pay(amount, queue);
    forall k | 0 <= k < |queue| ensures 0 <= PaidAt(lines, k) <= queue[k].outstanding {
      PayClosedForm(amount, queue, k);
    }
    forall i, j | 0 <= i < j < |queue| && PaidAt(lines, j) > 0 ensures PaidAt(lines, i) == queue[i].outstanding {
      EarlierClaimsFirst(amount, queue, i, j);
    }
    forall k | 0 <= k < |queue| && amount > Owed(queue) ensures PaidAt(lines, k) == queue[k].outstanding {
      SurplusMeansAllPaid(amount, queue, k);
    }
  }

  /** The queue is every positive claim, each once, in the facility's order. */
  lemma QueueIsInOrder(targets: seq<Claim>, order: seq<Category>, le: Rank<string>)
    requires TotalPreorder(le)
    ensures multiset(Queue(targets, order, le)) == multiset(Owing(targets))
    ensures Sorted(Queue(targets, order, le), ByClaim(order, le))
  {
    SortPermutes(Owing(targets), ByClaim(order, le));
    BeforeIsPreorder(order, le);
    SortSorts(Owing(targets), ByClaim(order, le));
  }

  /** What that order is: by category as the facility lists them, then oldest due date, then invoice. */
  lemma EarlierInTheQueue(targets: seq<Claim>, order: seq<Category>, le: Rank<string>, i: nat, j: nat)
    requires TotalPreorder(le) && i < j < |Queue(targets, order, le)|
    ensures var a, b := Queue(targets, order, le)[i], Queue(targets, order, le)[j];
            && (b.category in order ==> a.category in order)
            && (a.category == b.category ==>
                  a.dueDate < b.dueDate || (a.dueDate == b.dueDate && le(a.invoiceId, b.invoiceId)))
            && (Distinct(order) ==>
                  forall m, n :: 0 <= m < |order| && 0 <= n < |order| && order[m] == a.category && order[n] == b.category
                    ==> m <= n)
  {
    QueueIsInOrder(targets, order, le);
    var rank := ByClaim(order, le);
    var a, b := Queue(targets, order, le)[i], Queue(targets, order, le)[j];
    assert rank(a, b);
    assert Before(order, le, a, b);
  }

  /** The payment is conserved and split fairly along the queue. */
  lemma AllocationIsFair(amount: int, targets: seq<Claim>, order: seq<Category>, le: Rank<string>)
    ensures var r := Allocate(amount, targets, order, le);
            && Total(r.lines) + r.unapplied == Max(0, amount) && r.unapplied >= 0
            && Fair(r, Queue(targets, order, le))
  {
    var queue := Queue(targets, order, le);
    QueueOwes(targets, order, le);
    PayConserves(amount, queue);
    PayIsFair(amount, queue);
  }

  // ---------------------------------------------------------------- the order targets arrive in

  function SameKey(): Rank<Claim> {
    (a: Claim, b: Claim) => a.invoiceId == b.invoiceId && a.category == b.category
  }

  /** The order tells any two categories apart. */
  ghost predicate Settles(order: seq<Category>) {
    forall c, d :: RankOf(order, c) == RankOf(order, d) ==> c == d
  }

  lemma SettlesIffAtMostOneMissing(order: seq<Category>)
    ensures Settles(order) <==> forall c, d :: c !in order && d !in order ==> c == d
  {
    forall c, d | c !in order && d !in order ensures RankOf(order, c) == RankOf(order, d) {
    }
  }

  ghost predicate Antisymmetric(le: Rank<string>) {
    forall a, b :: le(a, b) && le(b, a) ==> a == b
  }

  lemma {:induction false} OwingCounts(targets: seq<Claim>, c: Claim)
    ensures multiset(Owing(targets))[c] == if c.outstanding > 0 then multiset(targets)[c] else 0
  {
    if targets != [] {
      OwingCounts(targets[1..], c);
      assert targets == [targets[0]] + targets[1..];
    }
  }

  lemma OwingPermutes(s: seq<Claim>, t: seq<Claim>)
    requires multiset(s) == multiset(t)
    ensures multiset(Owing(s)) == multiset(Owing(t))
  {
    forall c ensures multiset(Owing(s))[c] == multiset(Owing(t))[c] {
      OwingCounts(s, c);
      OwingCounts(t, c);
    }
  }

  lemma {:induction false} OwingKeepsKeysApart(targets: seq<Claim>)
    requires DistinctRanks(targets, SameKey())
    ensures DistinctRanks(Owing(targets), SameKey())
  {
    if targets != [] {
      OwingKeepsKeysApart(targets[1..]);
      OwingKeepsWhatIsOwed(targets[1..]);
    }
  }

  lemma QueueKeysAreApart(targets: seq<Claim>, order: seq<Category>, le: Rank<string>)
    requires DistinctRanks(targets, SameKey())
    ensures DistinctRanks(Queue(targets, order, le), SameKey())
  {
    OwingKeepsKeysApart(targets);
    SortKeepsRanksDistinct(Owing(targets), ByClaim(order, le), SameKey());
  }

  lemma NoTies(claims: seq<Claim>, order: seq<Category>, le: Rank<string>)
    requires Antisymmetric(le) && Settles(order) && DistinctRanks(claims, SameKey())
    ensures DistinctRanks(claims, ByClaim(order, le))
  {
    var rank, same := ByClaim(order, le), SameKey();
    forall i, j | 0 <= i < j < |claims| ensures !(rank(claims[i], claims[j]) && rank(claims[j], claims[i])) {
      var a, b := claims[i], claims[j];
      assert !(same(a, b) && same(b, a));
      assert !(Before(order, le, a, b) && Before(order, le, b, a));
    }
  }

  /** One target per invoice and category, under an order that tells categories apart: arrival order is irrelevant. */
  lemma AllocationIgnoresInputOrder(
      amount: int, s: seq<Claim>, t: seq<Claim>, order: seq<Category>, le: Rank<string>)
    requires TotalPreorder(le) && Antisymmetric(le) && Settles(order)
    requires DistinctRanks(s, SameKey()) && DistinctRanks(t, SameKey()) && multiset(s) == multiset(t)
    ensures Allocate(amount, s, order, le) == Allocate(amount, t, order, le)
  {
    OwingPermutes(s, t);
    OwingKeepsKeysApart(s);
    OwingKeepsKeysApart(t);
    NoTies(Owing(s), order, le);
    NoTies(Owing(t), order, le);
    BeforeIsPreorder(order, le);
    SortIgnoresInputOrder(Owing(s), Owing(t), ByClaim(order, le));
  }

  /** With two categories left out of the order the guarantee is gone: the first one listed is paid. */
  lemma TwoMissingCategoriesFollowInputOrder(order: seq<Category>, le: Rank<string>, c: Category, d: Category)
    requires TotalPreorder(le) && c != d && c !in order && d !in order
    ensures var x, y := Claim("a", c, 1, 0), Claim("a", d, 1, 0);
            && Allocate(1, [x, y], order, le).lines == [Line("a", c, 1)]
            && Allocate(1, [y, x], order, le).lines == [Line("a", d, 1)]
  {
    var x, y := Claim("a", c, 1, 0), Claim("a", d, 1, 0);
    TiedPair(order, le, x, y);
    TiedPair(order, le, y, x);
  }

  lemma TiedPair(order: seq<Category>, le: Rank<string>, x: Claim, y: Claim)
    requires Before(order, le, x, y) && x.outstanding == 1 && y.outstanding > 0
    ensures Allocate(1, [x, y], order, le).lines == [Line(x.invoiceId, x.category, 1)]
  {
    assert [x, y][1..] == [y];
    assert [y][1..] == [];
    assert Owing([y]) == [y];
    assert Owing([x, y]) == [x, y];
    assert Sort([y], ByClaim(order, le)) == [y];
    assert Queue([x, y], order, le) == [x, y];
    assert Pay(0, [y]) == [];
  }

  // ---------------------------------------------------------------- paying in two goes

  function PaidFor(lines: seq<Line>, invoiceId: string, category: Category): int {
    if lines == [] then 0
    else
      (if lines[0].invoiceId == invoiceId && lines[0].category == category then lines[0].amount else 0)
      + PaidFor(lines[1..], invoiceId, category)
  }

  /** A target after a payment: what its invoice and category was paid comes off. */
  function After(c: Claim, lines: seq<Line>): Claim {
    c.(outstanding := c.outstanding - PaidFor(lines, c.invoiceId, c.category))
  }

  function Reduce(targets: seq<Claim>, lines: seq<Line>): (r: seq<Claim>)
    ensures |r| == |targets|
  {
    if targets == [] then [] else [After(targets[0], lines)] + Reduce(targets[1..], lines)
  }

  lemma {:induction false} PaidForIsNotNegative(amount: int, claims: seq<Claim>, invoiceId: string, category: Category)
    requires AllOwing(claims)
    ensures PaidFor(Pay(amount, claims), invoiceId, category) >= 0
    ensures (forall k :: 0 <= k < |claims| ==> claims[k].invoiceId != invoiceId || claims[k].category != category) ==>
              PaidFor(Pay(amount, claims), invoiceId, category) == 0
    decreases |claims|
  {
    if claims != [] && amount > 0 {
      PaidForIsNotNegative(amount - Min(amount, claims[0].outstanding), claims[1..], invoiceId, category);
    }
  }

  /** Targets that owed nothing still owe nothing, so they stay out of the queue. */
  lemma {:induction false} ReduceThenFilter(targets: seq<Claim>, amount: int, claims: seq<Claim>)
    requires AllOwing(claims)
    ensures var lines := Pay(amount, claims); Owing(Reduce(targets, lines)) == Owing(Reduce(Owing(targets), lines))
  {
    if targets != [] {
      ReduceThenFilter(targets[1..], amount, claims);
      PaidForIsNotNegative(amount, claims, targets[0].invoiceId, targets[0].category);
    }
  }

  lemma {:induction false} ReducedFrom(s: seq<Claim>, lines: seq<Line>)
    ensures var left := Owing(Reduce(s, lines));
            left != [] ==> exists k :: 0 <= k < |s| && left[0] == After(s[k], lines)
  {
    if s != [] && After(s[0], lines).outstanding <= 0 {
      ReducedFrom(s[1..], lines);
      var left := Owing(Reduce(s[1..], lines));
      if left != [] {
        var k :| 0 <= k < |s| - 1 && left[0] == After(s[1..][k], lines);
        assert s[k + 1] == s[1..][k];
      }
    }
  }

  lemma InsertFirstThenReduce(x: Claim, s: seq<Claim>, lines: seq<Line>, order: seq<Category>, le: Rank<string>)
    requires TotalPreorder(le) && Sorted(s, ByClaim(order, le)) && (s == [] || Before(order, le, x, s[0]))
    ensures var left := Owing(Reduce(s, lines));
            Insert(After(x, lines), left, ByClaim(order, le)) == [After(x, lines)] + left
  {
    var rank, left := ByClaim(order, le), Owing(Reduce(s, lines));
    BeforeIsPreorder(order, le);
    ReducedFrom(s, lines);
    if left != [] {
      var k :| 0 <= k < |s| && left[0] == After(s[k], lines);
      assert rank(x, s[k]);
      assert Before(order, le, After(x, lines), left[0]);
    }
  }

  lemma {:induction false} InsertThenReduce(
      x: Claim, s: seq<Claim>, lines: seq<Line>, order: seq<Category>, le: Rank<string>)
    requires TotalPreorder(le) && Sorted(s, ByClaim(order, le))
    ensures var rank, left := ByClaim(order, le), Owing(Reduce(s, lines));
            Owing(Reduce(Insert(x, s, rank), lines))
            == if After(x, lines).outstanding > 0 then Insert(After(x, lines), left, rank) else left
  {
    var rank, left := ByClaim(order, le), Owing(Reduce(s, lines));
    if s == [] || rank(x, s[0]) {
      assert ([x] + s)[1..] == s;
      InsertFirstThenReduce(x, s, lines, order, le);
    } else {
      InsertThenReduce(x, s[1..], lines, order, le);
      var rest := Insert(x, s[1..], rank);
      assert ([s[0]] + rest)[1..] == rest;
      assert !Before(order, le, After(x, lines), After(s[0], lines));
      var tail := Owing(Reduce(s[1..], lines));
      assert ([After(s[0], lines)] + tail)[1..] == tail;
    }
  }

  /** Reducing keeps the queue's order, so the second queue is the first one with what was paid taken off. */
  lemma {:induction false} SortThenReduce(s: seq<Claim>, lines: seq<Line>, order: seq<Category>, le: Rank<string>)
    requires TotalPreorder(le)
    ensures var rank := ByClaim(order, le);
            Sort(Owing(Reduce(s, lines)), rank) == Owing(Reduce(Sort(s, rank), lines))
  {
    if s != [] {
      var rank := ByClaim(order, le);
      SortThenReduce(s[1..], lines, order, le);
      BeforeIsPreorder(order, le);
      SortSorts(s[1..], rank);
      InsertThenReduce(s[0], Sort(s[1..], rank), lines, order, le);
      var tail := Owing(Reduce(s[1..], lines));
      assert ([After(s[0], lines)] + tail)[1..] == tail;
    }
  }

  lemma {:induction false} ReduceSkips(s: seq<Claim>, line: Line, lines: seq<Line>)
    requires forall k :: 0 <= k < |s| ==> s[k].invoiceId != line.invoiceId || s[k].category != line.category
    ensures Reduce(s, [line] + lines) == Reduce(s, lines)
  {
    if s != [] {
      ReduceSkips(s[1..], line, lines);
      assert ([line] + lines)[1..] == lines;
    }
  }

  lemma {:induction false} ReduceByNothing(s: seq<Claim>)
    requires AllOwing(s)
    ensures Reduce(s, []) == s && Owing(s) == s
  {
    if s != [] {
      ReduceByNothing(s[1..]);
    }
  }

  /** No later claim is on the invoice and category of the first, and so on down the queue. */
  ghost predicate KeysApart(q: seq<Claim>) {
    q != [] ==> OtherKeys(q[0], q[1..]) && KeysApart(q[1..])
  }

  ghost predicate OtherKeys(c: Claim, rest: seq<Claim>) {
    forall k :: 0 <= k < |rest| ==> rest[k].invoiceId != c.invoiceId || rest[k].category != c.category
  }

  lemma {:induction false} DistinctKeysAreApart(q: seq<Claim>)
    requires DistinctRanks(q, SameKey())
    ensures KeysApart(q)
  {
    if q != [] {
      var same := SameKey();
      forall k | 1 <= k < |q| ensures q[k].invoiceId != q[0].invoiceId || q[k].category != q[0].category {
        assert !(same(q[0], q[k]) && same(q[k], q[0]));
      }
      DistinctKeysAreApart(q[1..]);
    }
  }

  /** The queue after a payment: the first claim shrinks if it was not covered, else it is gone. */
  lemma ReduceHead(a: nat, q: seq<Claim>)
    requires q != [] && a > 0 && AllOwing(q) && OtherKeys(q[0], q[1..])
    ensures var c, rest := q[0], q[1..];
            Owing(Reduce(q, Pay(a, q)))
            == if a < c.outstanding then [c.(outstanding := c.outstanding - a)] + rest
               else Owing(Reduce(rest, Pay(a - c.outstanding, rest)))
  {
    var c, rest := q[0], q[1..];
    var applied := Min(a, c.outstanding);
    var line, later := Line(c.invoiceId, c.category, applied), Pay(a - applied, rest);
    ReduceSkips(rest, line, later);
    PaidForIsNotNegative(a - applied, rest, c.invoiceId, c.category);
    if a < c.outstanding {
      ReduceByNothing(rest);
    }
  }

  /** Line by line, invoice by invoice: the first two lists come to the third. */
  ghost predicate AddUp(x: seq<Line>, y: seq<Line>, z: seq<Line>, invoiceId: string, category: Category) {
    && PaidFor(x, invoiceId, category) + PaidFor(y, invoiceId, category) == PaidFor(z, invoiceId, category)
    && Total(x) + Total(y) == Total(z)
  }

  lemma AddUpSameHead(line: Line, x: seq<Line>, y: seq<Line>, z: seq<Line>, invoiceId: string, category: Category)
    requires AddUp(x, y, z, invoiceId, category)
    ensures AddUp([line] + x, y, [line] + z, invoiceId, category)
  {
    assert ([line] + x)[1..] == x;
    assert ([line] + z)[1..] == z;
  }

  lemma AddUpSplitHead(line: Line, part: int, y: seq<Line>, invoiceId: string, category: Category)
    ensures AddUp([line.(amount := part)], [line.(amount := line.amount - part)] + y, [line] + y, invoiceId, category)
  {
    assert ([line.(amount := line.amount - part)] + y)[1..] == y;
    assert ([line] + y)[1..] == y;
  }

  /** One queue, two payments: claim by claim they come to what one payment of the sum would pay. */
  lemma {:induction false} PayTwice(
      a: nat, b: nat, q: seq<Claim>, left: seq<Claim>, invoiceId: string, category: Category)
    requires AllOwing(q) && KeysApart(q) && left == Owing(Reduce(q, Pay(a, q)))
    ensures AddUp(Pay(a, q), Pay(b, left), Pay(a + b, q), invoiceId, category)
    decreases |q|
  {
    if q == [] || a == 0 {
      ReduceByNothing(q);
      PayNothingFirst(a, b, q, invoiceId, category);
    } else if q[0].outstanding <= a {
      ReduceHead(a, q);
      PayTwice(a - q[0].outstanding, b, q[1..], left, invoiceId, category);
      PayAllOfTheFirst(a, b, q, Pay(b, left), invoiceId, category);
    } else {
      ReduceHead(a, q);
      PayPartOfTheFirst(a, b, q, invoiceId, category);
    }
  }

  lemma PayNothingFirst(a: nat, b: nat, q: seq<Claim>, invoiceId: string, category: Category)
    requires q == [] || a == 0
    ensures Pay(a, q) == [] && AddUp([], Pay(b, q), Pay(a + b, q), invoiceId, category)
  {
  }

  lemma PayInFull(amount: nat, q: seq<Claim>)
    requires q != [] && 0 < q[0].outstanding <= amount
    ensures Pay(amount, q)
         == [Line(q[0].invoiceId, q[0].category, q[0].outstanding)] + Pay(amount - q[0].outstanding, q[1..])
  {
  }

  lemma PayAllOfTheFirst(a: nat, b: nat, q: seq<Claim>, second: seq<Line>, invoiceId: string, category: Category)
    requires q != [] && 0 < q[0].outstanding <= a
    requires var rest, paid := q[1..], a - q[0].outstanding;
             AddUp(Pay(paid, rest), second, Pay(paid + b, rest), invoiceId, category)
    ensures AddUp(Pay(a, q), second, Pay(a + b, q), invoiceId, category)
  {
    var line := Line(q[0].invoiceId, q[0].category, q[0].outstanding);
    var x, z := Pay(a - q[0].outstanding, q[1..]), Pay(a - q[0].outstanding + b, q[1..]);
    AddUpSameHead(line, x, second, z, invoiceId, category);
    PayInFull(a, q);
    PayInFull(a + b, q);
    assert a + b - q[0].outstanding == a - q[0].outstanding + b;
  }

  lemma PayPartOfTheFirst(a: nat, b: nat, q: seq<Claim>, invoiceId: string, category: Category)
    requires q != [] && 0 < a < q[0].outstanding
    ensures var left := q[0].(outstanding := q[0].outstanding - a);
            AddUp(Pay(a, q), Pay(b, [left] + q[1..]), Pay(a + b, q), invoiceId, category)
  {
    var c, rest := q[0], q[1..];
    var left := c.(outstanding := c.outstanding - a);
    assert Pay(a, q) == [Line(c.invoiceId, c.category, a)];
    if b > 0 {
      var taken := Min(b, left.outstanding);
      var later := Pay(b - taken, rest);
      assert ([left] + rest)[1..] == rest;
      assert Pay(b, [left] + rest) == [Line(c.invoiceId, c.category, taken)] + later;
      assert Pay(a + b, q) == [Line(c.invoiceId, c.category, a + taken)] + later;
      AddUpSplitHead(Line(c.invoiceId, c.category, a + taken), a, later, invoiceId, category);
    }
  }

  lemma SecondQueue(a: nat, targets: seq<Claim>, order: seq<Category>, le: Rank<string>)
    requires TotalPreorder(le)
    ensures var q := Queue(targets, order, le);
            Queue(Reduce(targets, Pay(a, q)), order, le) == Owing(Reduce(q, Pay(a, q)))
  {
    var q := Queue(targets, order, le);
    QueueOwes(targets, order, le);
    ReduceThenFilter(targets, a, q);
    SortThenReduce(Owing(targets), Pay(a, q), order, le);
  }

  lemma LeftoversAddUp(a: nat, b: nat, q: seq<Claim>, left: seq<Claim>)
    requires AllOwing(q) && AllOwing(left) && Total(Pay(a, q)) + Total(Pay(b, left)) == Total(Pay(a + b, q))
    ensures Max(0, a - Owed(q)) + Max(0, b - Owed(left)) == Max(0, a + b - Owed(q))
  {
    PayConserves(a, q);
    PayConserves(b, left);
    PayConserves(a + b, q);
  }

  /** Two allocations that come to a third: every invoice and category, and the money left over. */
  ghost predicate ComesTo(x: Allocation, y: Allocation, z: Allocation, invoiceId: string, category: Category) {
    AddUp(x.lines, y.lines, z.lines, invoiceId, category) && x.unapplied + y.unapplied == z.unapplied
  }

  lemma QueuePaidTwice(a: nat, b: nat, q: seq<Claim>, left: seq<Claim>, invoiceId: string, category: Category)
    requires AllOwing(q) && AllOwing(left) && KeysApart(q) && left == Owing(Reduce(q, Pay(a, q)))
    ensures ComesTo(Allocation(Pay(a, q), Max(0, a - Owed(q))), Allocation(Pay(b, left), Max(0, b - Owed(left))),
                    Allocation(Pay(a + b, q), Max(0, a + b - Owed(q))), invoiceId, category)
  {
    PayTwice(a, b, q, left, invoiceId, category);
    LeftoversAddUp(a, b, q, left);
  }

  /** Paying a, then b on what is left, pays every invoice and category what a + b at once would. */
  lemma TwoPaymentsAreOne(
      a: nat, b: nat, targets: seq<Claim>, order: seq<Category>, le: Rank<string>, invoiceId: string, category: Category)
    requires TotalPreorder(le) && DistinctRanks(targets, SameKey())
    ensures var first := Allocate(a, targets, order, le);
            ComesTo(first, Allocate(b, Reduce(targets, first.lines), order, le), Allocate(a + b, targets, order, le),
                    invoiceId, category)
  {
    var q := Queue(targets, order, le);
    var left := Queue(Reduce(targets, Pay(a, q)), order, le);
    QueueOwes(targets, order, le);
    QueueOwes(Reduce(targets, Pay(a, q)), order, le);
    QueueKeysAreApart(targets, order, le);
    DistinctKeysAreApart(q);
    SecondQueue(a, targets, order, le);
    QueuePaidTwice(a, b, q, left, invoiceId, category);
  }
}
