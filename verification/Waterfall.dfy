/**
 The sale waterfall (packages/core/auctions/waterfall.ts). Amounts are integer cents.
 */
module Waterfall {
  import opened Wrappers

  datatype Sale = Sale(grossProceeds: int, saleCosts: int, lienBalance: int)

  datatype Outcome = Outcome(costsRecovered: int, appliedToLien: int, surplus: int, deficiency: int)

  /** The fields of a sale, which are checked in the order its object lists them. */
  datatype Field = GrossProceeds | SaleCosts | LienBalance

  datatype Error = Negative(field: Field) | NotEveryCent | SurplusAndDeficiency

  datatype Entry = Charge(amount: int) | Payment(amount: int)

  function Value(sale: Sale, f: Field): int {
    match f
    case GrossProceeds => sale.grossProceeds
    case SaleCosts => sale.saleCosts
    case LienBalance => sale.lienBalance
  }

  /** The first field in the caller's order whose amount is negative. */
  ghost predicate FirstNegative(sale: Sale, fields: seq<Field>, f: Field) {
    exists i :: 0 <= i < |fields| && fields[i] == f && Value(sale, f) < 0
                && forall k :: 0 <= k < i ==> Value(sale, fields[k]) >= 0
  }

  /**
   Costs first, then the lien, then the former tenant. What is left over is what the sale raised
   beyond all that was owed, and what is still owed is what it fell short by: never both.
   */
  method Distribute(sale: Sale, fields: seq<Field>) returns (r: Result<Outcome, Error>)
    requires forall f: Field :: f in fields
    ensures r.Ok? <==> sale.grossProceeds >= 0 && sale.saleCosts >= 0 && sale.lienBalance >= 0
    ensures r.Err? ==> r.error.Negative? && FirstNegative(sale, fields, r.error.field)
    ensures r.Ok? ==>
              var o, owed := r.value, sale.saleCosts + sale.lienBalance;
              && o.costsRecovered + o.appliedToLien + o.surplus == sale.grossProceeds
              && 0 <= o.costsRecovered <= sale.saleCosts && 0 <= o.appliedToLien <= sale.lienBalance
              && (o.appliedToLien > 0 ==> o.costsRecovered == sale.saleCosts)
              && (if sale.grossProceeds >= owed then o.surplus == sale.grossProceeds - owed && o.deficiency == 0
                  else o.surplus == 0 && o.deficiency == owed - sale.grossProceeds)
  {
    for i := 0 to |fields|
      invariant forall k :: 0 <= k < i ==> Value(sale, fields[k]) >= 0
    {
      if Value(sale, fields[i]) < 0 {
        return Err(Negative(fields[i]));
      }
    }
    AllChecked(sale, fields);
    var costsRecovered := Min(sale.saleCosts, sale.grossProceeds);
    var remaining := sale.grossProceeds - costsRecovered;
    var appliedToLien := Min(sale.lienBalance, remaining);
    remaining := remaining - appliedToLien;
    var surplus := remaining;
    var unrecovered := sale.saleCosts - costsRecovered;
    var deficiency := sale.lienBalance - appliedToLien + unrecovered;
    if costsRecovered + appliedToLien + surplus != sale.grossProceeds {
      return Err(NotEveryCent);
    }
    if surplus > 0 && deficiency > 0 {
      return Err(SurplusAndDeficiency);
    }
    r := Ok(Outcome(costsRecovered, appliedToLien, surplus, deficiency));
  }

  lemma AllChecked(sale: Sale, fields: seq<Field>)
    requires forall f: Field :: f in fields
    requires forall k :: 0 <= k < |fields| ==> Value(sale, fields[k]) >= 0
    ensures sale.grossProceeds >= 0 && sale.saleCosts >= 0 && sale.lienBalance >= 0
  {
    assert GrossProceeds in fields && SaleCosts in fields && LienBalance in fields;
    assert Value(sale, GrossProceeds) >= 0 && Value(sale, SaleCosts) >= 0 && Value(sale, LienBalance) >= 0;
  }

  function Sum(entries: seq<Entry>): int {
    if entries == [] then 0 else Sum(entries[..|entries| - 1]) + entries[|entries| - 1].amount
  }

  /** The entries a sale posts settle the lease down to the deficiency. */
  method LedgerPostings(sale: Sale, o: Outcome) returns (postings: seq<Entry>)
    ensures Sum(postings) == (if sale.saleCosts > 0 then sale.saleCosts else 0)
                             - (if o.costsRecovered + o.appliedToLien > 0 then o.costsRecovered + o.appliedToLien else 0)
    ensures |postings| <= 2 && (|postings| == 2 ==> postings[0].Charge? && postings[1].Payment?)
    ensures forall k :: 0 <= k < |postings| ==>
              if postings[k].Charge? then postings[k].amount == sale.saleCosts > 0
              else -postings[k].amount == o.costsRecovered + o.appliedToLien > 0
  {
    postings := [];
    if sale.saleCosts > 0 {
      postings := postings + [Charge(sale.saleCosts)];
    }
    ghost var before := postings;
    assert before[..0] == [] && Sum(before) == if sale.saleCosts > 0 then sale.saleCosts else 0;
    var applied := o.costsRecovered + o.appliedToLien;
    if applied > 0 {
      postings := postings + [Payment(-applied)];
      assert postings[..|before|] == before;
    }
  }

  /** The balance before the sale plus what the sale posts is the deficiency, to the cent. */
  method SettleSale(sale: Sale, fields: seq<Field>) returns (r: Result<Outcome, Error>, postings: seq<Entry>)
    requires forall f: Field :: f in fields
    ensures r.Ok? ==> sale.lienBalance + Sum(postings) == r.value.deficiency
    ensures r.Ok? <==> sale.grossProceeds >= 0 && sale.saleCosts >= 0 && sale.lienBalance >= 0
  {
    postings := [];
    r := Distribute(sale, fields);
    if r.Ok? {
      postings := LedgerPostings(sale, r.value);
    }
  }
}
