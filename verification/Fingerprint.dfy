/**
 windowFingerprint and stableStringify (packages/core/access/reconciliation.ts).

 Both sides of the nightly gate-controller diff print their time window and compare the strings,
 so the printed form has to be equal exactly when the windows are. `localeCompare` is any total
 order on keys.
 */
module Fingerprint {
  import opened Wrappers
  import opened Sorting
  import opened Decimals

  datatype Json =
    | Undefined
    | Null
    | Bool(b: bool)
    | Num(n: int)
    | Str(s: string)
    | Arr(items: seq<Json>)
    | Obj(entries: seq<Entry>)

  datatype Entry = Entry(key: string, value: Json)

  type Order = (string, string) -> bool

  ghost predicate TotalOrder(le: Order) {
    && (forall a, b :: le(a, b) || le(b, a))
    && (forall a, b :: le(a, b) && le(b, a) ==> a == b)
    && (forall a, b, c :: le(a, b) && le(b, c) ==> le(a, c))
  }

  ghost predicate UniqueKeys(es: seq<Entry>) {
    forall i, j :: 0 <= i < j < |es| ==> es[i].key != es[j].key
  }

  /** A JavaScript object has no repeated key, at any depth. */
  ghost predicate WellFormed(j: Json) {
    match j
    case Arr(items) => forall i :: 0 <= i < |items| ==> WellFormed(items[i])
    case Obj(es) => UniqueKeys(es) && forall i :: 0 <= i < |es| ==> WellFormed(es[i].value)
    case _ => true
  }

  // ---------------------------------------------------------------- printing

  function HexDigit(n: int): char
    requires 0 <= n < 16
  {
    if n < 10 then '0' + n as char else 'a' + (n - 10) as char
  }

  /** How JSON.stringify writes one character of a string. */
  function Escape(c: char): (r: string)
    ensures r != "" && r[0] != '"'
  {
    if c == '"' then ['\\', '"']
    else if c == '\\' then ['\\', '\\']
    else if c as int == 8 then ['\\', 'b']
    else if c as int == 9 then ['\\', 't']
    else if c as int == 10 then ['\\', 'n']
    else if c as int == 12 then ['\\', 'f']
    else if c as int == 13 then ['\\', 'r']
    else if c as int < 32 then ['\\', 'u', '0', '0', HexDigit(c as int / 16), HexDigit(c as int % 16)]
    else [c]
  }

  function EscapeAll(s: string): string {
    if s == "" then "" else Escape(s[0]) + EscapeAll(s[1..])
  }

  function Quote(s: string): string {
    ['"'] + EscapeAll(s) + ['"']
  }

  function Integer(n: int): string {
    if n < 0 then ['-'] + Decimal(-n) else Decimal(n)
  }

  datatype Member = Member(key: string, text: string)

  function ByKey(le: Order): Rank<Member> {
    (a: Member, b: Member) => le(a.key, b.key)
  }

  function JoinMembers(ms: seq<Member>): string {
    if ms == [] then ""
    else Quote(ms[0].key) + ([':'] + (ms[0].text + (if |ms| == 1 then "" else [','] + JoinMembers(ms[1..]))))
  }

  /** `undefined` outside an object prints as null; inside one it is left out. */
  function Stringify(j: Json, le: Order): string
    decreases j, 1
  {
    match j
    case Undefined => "null"
    case Null => "null"
    case Bool(b) => if b then "true" else "false"
    case Num(n) => Integer(n)
    case Str(s) => Quote(s)
    case Arr(items) => ['['] + JoinItems(items, le) + [']']
    case Obj(es) => ['{'] + JoinMembers(Sort(Members(es, le), ByKey(le))) + ['}']
  }

  function JoinItems(items: seq<Json>, le: Order): string
    decreases items, 0
  {
    if items == [] then ""
    else Stringify(items[0], le) + (if |items| == 1 then "" else [','] + JoinItems(items[1..], le))
  }

  /** The defined entries, each value printed; sorting by key afterwards gives the same text. */
  function Members(es: seq<Entry>, le: Order): seq<Member>
    decreases es, 0
  {
    if es == [] then []
    else
      var rest := Members(es[1..], le);
      if es[0].value.Undefined? then rest else [Member(es[0].key, Stringify(es[0].value, le))] + rest
  }

  function WindowFingerprint(schedule: Json, exempt: bool, le: Order): Option<string> {
    if exempt then Some("exempt")
    else if schedule.Null? || schedule.Undefined? then None
    else Some("sched:" + Stringify(schedule, le))
  }

  // ---------------------------------------------------------------- what equality should mean

  /** `object[key]`. */
  function Find(es: seq<Entry>, key: string): Json {
    if es == [] then Undefined else if es[0].key == key then es[0].value else Find(es[1..], key)
  }

  /** Equal up to key order and undefined members; an undefined array element counts as null. */
  ghost predicate Same(a: Json, b: Json)
    decreases a, 0
  {
    match a
    case Undefined => b.Undefined? || b.Null?
    case Null => b.Undefined? || b.Null?
    case Arr(items) => b.Arr? && SameItems(items, b.items)
    case Obj(es) =>
      b.Obj? && (forall key :: Find(es, key).Undefined? <==> Find(b.entries, key).Undefined?) && SameEntries(es, b.entries)
    case _ => a == b
  }

  ghost predicate SameItems(xs: seq<Json>, ys: seq<Json>)
    decreases xs, 0
  {
    if xs == [] then ys == [] else ys != [] && Same(xs[0], ys[0]) && SameItems(xs[1..], ys[1..])
  }

  /** Every defined entry has the same value in the other object. */
  ghost predicate SameEntries(es: seq<Entry>, fs: seq<Entry>)
    decreases es, 0
  {
    es == []
    || ((es[0].value.Undefined? || Same(es[0].value, Find(fs, es[0].key))) && SameEntries(es[1..], fs))
  }

  lemma {:induction false} FindIndex(es: seq<Entry>, key: string) returns (i: nat)
    requires !Find(es, key).Undefined?
    ensures i < |es| && es[i] == Entry(key, Find(es, key))
  {
    if es[0].key == key {
      i := 0;
    } else {
      var k := FindIndex(es[1..], key);
      i := k + 1;
    }
  }

  lemma {:induction false} FindUnique(es: seq<Entry>, i: nat)
    requires UniqueKeys(es) && i < |es|
    ensures Find(es, es[i].key) == es[i].value
  {
    if i > 0 {
      FindUnique(es[1..], i - 1);
    }
  }

  // ---------------------------------------------------------------- no printed value is a prefix of another

  lemma EscapeIsPrefixFree(c: char, d: char, r: string, s: string)
    requires Escape(c) + r == Escape(d) + s
    ensures c == d && r == s
  {
    var t := Escape(c) + r;
    assert t[0] == Escape(c)[0] == Escape(d)[0];
    if |Escape(c)| > 1 {
      assert t[1] == Escape(c)[1] == Escape(d)[1];
      if |Escape(c)| > 2 {
        assert t[4] == Escape(c)[4] == Escape(d)[4] && t[5] == Escape(c)[5] == Escape(d)[5];
      }
    }
    assert c == d;
    assert r == t[|Escape(c)|..] == s;
  }

  /** The rest of a quoted string and what follows it. */
  function Closing(a: string, r: string): string {
    EscapeAll(a) + ['"'] + r
  }

  lemma ClosingStart(a: string, r: string)
    ensures Closing(a, r) != ""
    ensures Closing(a, r)[0] == '"' <==> a == ""
    ensures a == "" ==> Closing(a, r)[1..] == r
    ensures a != "" ==> Closing(a, r) == Escape(a[0]) + Closing(a[1..], r)
  {
  }

  lemma {:induction false} ClosingIsPrefixFree(a: string, b: string, r: string, s: string)
    requires Closing(a, r) == Closing(b, s)
    ensures a == b && r == s
  {
    ClosingStart(a, r);
    ClosingStart(b, s);
    if a != "" {
      EscapeIsPrefixFree(a[0], b[0], Closing(a[1..], r), Closing(b[1..], s));
      ClosingIsPrefixFree(a[1..], b[1..], r, s);
      assert a == [a[0]] + a[1..] && b == [b[0]] + b[1..];
    }
  }

  lemma QuoteIsPrefixFree(a: string, b: string, r: string, s: string)
    requires Quote(a) + r == Quote(b) + s
    ensures a == b && r == s
  {
    assert (Quote(a) + r)[1..] == Closing(a, r);
    assert (Quote(b) + s)[1..] == Closing(b, s);
    ClosingIsPrefixFree(a, b, r, s);
  }

  /** What may follow a value: the end, or the delimiter of the container. */
  ghost predicate Stop(r: string) {
    r == "" || r[0] == ',' || r[0] == ']' || r[0] == '}'
  }

  lemma DigitRunIsPrefixFree(a: string, b: string, r: string, s: string)
    requires AllDigits(a) && AllDigits(b) && Stop(r) && Stop(s) && a + r == b + s
    ensures a == b && r == s
  {
    var t := a + r;
    assert forall i :: 0 <= i < |a| ==> t[i] == a[i];
    assert forall i :: 0 <= i < |b| ==> t[i] == b[i];
    assert |a| < |t| ==> t[|a|] == r[0];
    assert |b| < |t| ==> t[|b|] == s[0];
    assert a == t[..|a|] && b == t[..|b|];
    assert r == t[|a|..] && s == t[|b|..];
  }

  lemma DropFirst(c: char, s: string, r: string)
    ensures ([c] + s + r)[1..] == s + r
  {
  }

  lemma IntegerSign(n: int, r: string)
    ensures Integer(n) + r != "" && ((Integer(n) + r)[0] == '-' <==> n < 0)
    ensures n < 0 ==> (Integer(n) + r)[1..] == Decimal(-n) + r
  {
    if n < 0 {
      DropFirst('-', Decimal(-n), r);
    }
    assert AllDigits(Decimal(if n < 0 then -n else n));
  }

  lemma SamePositive(m: nat, n: nat, r: string, s: string)
    requires Stop(r) && Stop(s) && Decimal(m) + r == Decimal(n) + s
    ensures m == n && r == s
  {
    DigitRunIsPrefixFree(Decimal(m), Decimal(n), r, s);
    DecimalInjective(m, n);
  }

  lemma IntegerIsPrefixFree(m: int, n: int, r: string, s: string)
    requires Stop(r) && Stop(s) && Integer(m) + r == Integer(n) + s
    ensures m == n && r == s
  {
    IntegerSign(m, r);
    IntegerSign(n, s);
    if m < 0 {
      SamePositive(-m, -n, r, s);
    } else {
      SamePositive(m, n, r, s);
    }
  }

  lemma {:induction false} Pow10Exceeds(n: nat)
    ensures n < Pow10(n + 1)
  {
    if n > 0 {
      Pow10Exceeds(n - 1);
    }
  }

  lemma DecimalInjective(m: nat, n: nat)
    requires Decimal(m) == Decimal(n)
    ensures m == n
  {
    Pow10Exceeds(m);
    DecimalFits(m, m + 1);
    Pow10Exceeds(n);
    DecimalFits(n, n + 1);
  }

  // ---------------------------------------------------------------- members

  ghost predicate DistinctKeys(ms: seq<Member>) {
    forall i, j :: 0 <= i < j < |ms| ==> ms[i].key != ms[j].key
  }

  /** The member is one of the object's defined entries, printed. */
  ghost predicate Prints(es: seq<Entry>, m: Member, le: Order) {
    !Find(es, m.key).Undefined? && m.text == Stringify(Find(es, m.key), le)
  }

  lemma {:induction false} MembersHaveKeys(es: seq<Entry>, m: Member, le: Order) returns (i: nat)
    requires m in Members(es, le)
    ensures i < |es| && es[i].key == m.key
  {
    if !es[0].value.Undefined? && m == Member(es[0].key, Stringify(es[0].value, le)) {
      i := 0;
    } else {
      var k := MembersHaveKeys(es[1..], m, le);
      i := k + 1;
    }
  }

  lemma {:induction false} MembersPrintEntries(es: seq<Entry>, le: Order)
    requires UniqueKeys(es)
    ensures forall m :: m in Members(es, le) <==> Prints(es, m, le)
    ensures DistinctKeys(Members(es, le))
  {
    if es != [] {
      var rest := es[1..];
      MembersPrintEntries(rest, le);
      forall m | m in Members(rest, le) ensures m.key != es[0].key {
        var i := MembersHaveKeys(rest, m, le);
        assert rest[i] == es[i + 1];
      }
      forall m ensures m in Members(es, le) <==> Prints(es, m, le) {
        if m.key == es[0].key {
          assert m !in Members(rest, le);
        } else {
          assert Prints(es, m, le) == Prints(rest, m, le);
        }
      }
    }
  }

  lemma ByKeyIsPreorder(le: Order)
    requires TotalOrder(le)
    ensures TotalPreorder(ByKey(le))
    ensures forall ms :: DistinctKeys(ms) ==> DistinctRanks(ms, ByKey(le))
  {
    var rank := ByKey(le);
    assert forall a: Member, b: Member :: rank(a, b) == le(a.key, b.key);
  }

  lemma SortedMembers(es: seq<Entry>, le: Order)
    requires TotalOrder(le) && UniqueKeys(es)
    ensures TotalPreorder(ByKey(le))
    ensures Sorted(Sort(Members(es, le), ByKey(le)), ByKey(le)) && DistinctRanks(Sort(Members(es, le), ByKey(le)), ByKey(le))
    ensures forall m :: m in Sort(Members(es, le), ByKey(le)) <==> Prints(es, m, le)
  {
    var ms := Members(es, le);
    MembersPrintEntries(es, le);
    ByKeyIsPreorder(le);
    SortSorts(ms, ByKey(le));
    SortKeepsRanksDistinct(ms, ByKey(le), ByKey(le));
    SortPermutes(ms, ByKey(le));
    SameElements(Sort(ms, ByKey(le)), ms);
  }

  // ---------------------------------------------------------------- equal text means the same value

  datatype Kind = KNull | KTrue | KFalse | KString | KArray | KObject | KNumber | KNone

  function KindOfChar(c: char): Kind {
    if c == 'n' then KNull else if c == 't' then KTrue else if c == 'f' then KFalse
    else if c == '"' then KString else if c == '[' then KArray else if c == '{' then KObject
    else if c == '-' || IsDigit(c) then KNumber else KNone
  }

  function KindOf(j: Json): Kind {
    match j
    case Undefined => KNull
    case Null => KNull
    case Bool(b) => if b then KTrue else KFalse
    case Num(_) => KNumber
    case Str(_) => KString
    case Arr(_) => KArray
    case Obj(_) => KObject
  }

  /** The first character of a printed value tells its kind, and is never a delimiter. */
  lemma FirstCharTellsKind(j: Json, r: string, le: Order)
    ensures Stringify(j, le) != "" && KindOfChar((Stringify(j, le) + r)[0]) == KindOf(j)
  {
    if j.Num? {
      assert AllDigits(Decimal(if j.n < 0 then -j.n else j.n));
    }
  }

  function ItemsTail(xs: seq<Json>, r: string, le: Order): string {
    JoinItems(xs, le) + [']'] + r
  }

  function AfterItem(xs: seq<Json>, r: string, le: Order): string
    requires xs != []
  {
    if |xs| == 1 then [']'] + r else [','] + ItemsTail(xs[1..], r, le)
  }

  lemma ItemsTailUnfolds(xs: seq<Json>, r: string, le: Order)
    ensures xs == [] ==> ItemsTail(xs, r, le) == [']'] + r
    ensures xs != [] ==> ItemsTail(xs, r, le) == Stringify(xs[0], le) + AfterItem(xs, r, le)
  {
  }

  function MembersTail(ms: seq<Member>, r: string): string {
    JoinMembers(ms) + (['}'] + r)
  }

  function AfterMember(ms: seq<Member>, r: string): string
    requires ms != []
  {
    (if |ms| == 1 then "" else [','] + JoinMembers(ms[1..])) + (['}'] + r)
  }

  lemma Regroup(a: string, b: string, c: string, d: string, e: string)
    ensures (a + (b + (c + d))) + e == a + (b + (c + (d + e)))
  {
  }

  lemma MembersTailUnfolds(ms: seq<Member>, r: string)
    ensures ms == [] ==> MembersTail(ms, r) == ['}'] + r
    ensures ms != [] ==> MembersTail(ms, r) == Quote(ms[0].key) + ([':'] + (ms[0].text + AfterMember(ms, r)))
  {
    if ms != [] {
      Regroup(Quote(ms[0].key), [':'], ms[0].text, if |ms| == 1 then "" else [','] + JoinMembers(ms[1..]), ['}'] + r);
    }
  }

  lemma {:induction false} ItemsArePrefixFree(xs: seq<Json>, ys: seq<Json>, r: string, s: string, le: Order)
    requires TotalOrder(le) && WellFormed(Arr(xs)) && WellFormed(Arr(ys))
    requires ItemsTail(xs, r, le) == ItemsTail(ys, s, le)
    ensures r == s && SameItems(xs, ys)
    decreases xs, 0
  {
    ItemsTailUnfolds(xs, r, le);
    ItemsTailUnfolds(ys, s, le);
    if xs != [] { FirstCharTellsKind(xs[0], AfterItem(xs, r, le), le); }
    if ys != [] { FirstCharTellsKind(ys[0], AfterItem(ys, s, le), le); }
    assert KindOfChar(']') == KNone;
    if xs == [] {
      assert ys == [];
      assert r == ItemsTail(xs, r, le)[1..] == s;
    } else {
      assert ys != [];
      var rx, ry := AfterItem(xs, r, le), AfterItem(ys, s, le);
      PrintedValuesArePrefixFree(xs[0], ys[0], rx, ry, le);
      assert rx[0] == ry[0];
      if |xs| == 1 {
        assert r == rx[1..] == s;
      } else {
        assert ItemsTail(xs[1..], r, le) == rx[1..] == ItemsTail(ys[1..], s, le);
        ItemsArePrefixFree(xs[1..], ys[1..], r, s, le);
      }
    }
  }

  lemma SameRestText(x: string, y: string, r: string)
    requires x + r == y + r
    ensures x == y
  {
    assert |x| == |y|;
    assert x == (x + r)[..|x|] == y;
  }

  lemma KeyThenText(m: Member, n: Member, rx: string, ry: string)
    requires Quote(m.key) + ([':'] + (m.text + rx)) == Quote(n.key) + ([':'] + (n.text + ry))
    ensures m.key == n.key && m.text + rx == n.text + ry
  {
    var x, y := [':'] + (m.text + rx), [':'] + (n.text + ry);
    QuoteIsPrefixFree(m.key, n.key, x, y);
    assert m.text + rx == x[1..] && n.text + ry == y[1..];
  }

  lemma AfterMemberStarts(ms: seq<Member>, r: string)
    requires ms != []
    ensures Stop(AfterMember(ms, r)) && AfterMember(ms, r) != ""
    ensures AfterMember(ms, r)[0] == (if |ms| == 1 then '}' else ',')
    ensures AfterMember(ms, r)[1..] == if |ms| == 1 then r else MembersTail(ms[1..], r)
  {
    if |ms| > 1 {
      Shift(',', JoinMembers(ms[1..]), ['}'] + r);
    } else {
      assert "" + (['}'] + r) == ['}'] + r;
    }
  }

  lemma Shift(c: char, x: string, y: string)
    ensures ([c] + x) + y == [c] + (x + y) && (([c] + x) + y)[1..] == x + y
  {
  }

  lemma FirstMembers(ms: seq<Member>, ns: seq<Member>, r: string, s: string)
    requires MembersTail(ms, r) == MembersTail(ns, s)
    ensures ms == [] <==> ns == []
    ensures ms == [] ==> r == s
    ensures ms != [] && ns != [] ==>
              ms[0].key == ns[0].key && ms[0].text + AfterMember(ms, r) == ns[0].text + AfterMember(ns, s)
  {
    var t := MembersTail(ms, r);
    MembersTailUnfolds(ms, r);
    MembersTailUnfolds(ns, s);
    assert ms != [] ==> t[0] == '"';
    assert ns != [] ==> t[0] == '"';
    if ms == [] {
      assert r == t[1..] == s;
    } else {
      KeyThenText(ms[0], ns[0], AfterMember(ms, r), AfterMember(ns, s));
    }
  }

  lemma {:induction false} MemberTextsArePrefixFree(
    es: seq<Entry>, fs: seq<Entry>, m: Member, n: Member, rx: string, ry: string, le: Order
  )
    requires TotalOrder(le) && WellFormed(Obj(es)) && WellFormed(Obj(fs))
    requires Prints(es, m, le) && Prints(fs, n, le) && Stop(rx) && Stop(ry) && m.text + rx == n.text + ry
    ensures rx == ry && m.text == n.text
    decreases es, 0
  {
    var i := FindIndex(es, m.key);
    var k := FindIndex(fs, n.key);
    PrintedValuesArePrefixFree(es[i].value, fs[k].value, rx, ry, le);
    SameRestText(m.text, n.text, rx);
  }

  lemma {:induction false} MembersArePrefixFree(
    es: seq<Entry>, fs: seq<Entry>, ms: seq<Member>, ns: seq<Member>, r: string, s: string, le: Order
  )
    requires TotalOrder(le) && WellFormed(Obj(es)) && WellFormed(Obj(fs))
    requires forall m :: m in ms ==> Prints(es, m, le)
    requires forall n :: n in ns ==> Prints(fs, n, le)
    requires MembersTail(ms, r) == MembersTail(ns, s)
    ensures r == s && ms == ns
    decreases es, |ms| + 1
  {
    FirstMembers(ms, ns, r, s);
    if ms != [] {
      AfterMemberStarts(ms, r);
      AfterMemberStarts(ns, s);
      MemberTextsArePrefixFree(es, fs, ms[0], ns[0], AfterMember(ms, r), AfterMember(ns, s), le);
      if |ms| > 1 {
        MembersArePrefixFree(es, fs, ms[1..], ns[1..], r, s, le);
      }
      assert ms == [ms[0]] + ms[1..] && ns == [ns[0]] + ns[1..];
    }
  }

  lemma SameTextRest(x: string, r: string, s: string)
    requires x + r == x + s
    ensures r == s
  {
    assert r == (x + r)[|x|..] == s;
  }

  lemma ObjectBody(ms: seq<Member>, r: string)
    ensures (['{'] + JoinMembers(ms) + ['}'] + r)[1..] == MembersTail(ms, r)
  {
    Shift('{', JoinMembers(ms), ['}'] + r);
    assert (['{'] + JoinMembers(ms)) + (['}'] + r) == ['{'] + JoinMembers(ms) + ['}'] + r;
  }

  lemma ArrayBody(xs: seq<Json>, r: string, le: Order)
    ensures (['['] + JoinItems(xs, le) + [']'] + r)[1..] == ItemsTail(xs, r, le)
  {
  }

  /** Entries whose printed members agree have the same values. */
  lemma {:induction false} SamePrintSameEntries(es: seq<Entry>, fs: seq<Entry>, le: Order)
    requires TotalOrder(le) && WellFormed(Obj(es)) && WellFormed(Obj(fs))
    requires forall m :: Prints(es, m, le) ==> Prints(fs, m, le)
    ensures SameEntries(es, fs)
    decreases es, 0
  {
    if es != [] {
      var rest := es[1..];
      forall m | Prints(rest, m, le) ensures Prints(fs, m, le) {
        var i := FindIndex(rest, m.key);
        FindUnique(es, i + 1);
        assert Prints(es, m, le);
      }
      SamePrintSameEntries(rest, fs, le);
      if !es[0].value.Undefined? {
        var m := Member(es[0].key, Stringify(es[0].value, le));
        assert Prints(es, m, le);
        assert Prints(fs, m, le);
        var k := FindIndex(fs, m.key);
        PrintedValuesArePrefixFree(es[0].value, fs[k].value, "", "", le);
      }
    }
  }

  /** Objects whose sorted members print alike are the same object. */
  lemma {:induction false} SameMembersSameObject(es: seq<Entry>, fs: seq<Entry>, le: Order)
    requires TotalOrder(le) && WellFormed(Obj(es)) && WellFormed(Obj(fs))
    requires Sort(Members(es, le), ByKey(le)) == Sort(Members(fs, le), ByKey(le))
    ensures Same(Obj(es), Obj(fs))
    decreases es, 1
  {
    SortedMembers(es, le);
    SortedMembers(fs, le);
    forall key ensures Find(es, key).Undefined? <==> Find(fs, key).Undefined? {
      assert !Find(es, key).Undefined? ==> Prints(es, Member(key, Stringify(Find(es, key), le)), le);
      assert !Find(fs, key).Undefined? ==> Prints(fs, Member(key, Stringify(Find(fs, key), le)), le);
    }
    SamePrintSameEntries(es, fs, le);
  }

  lemma {:induction false} PrintedObjectsArePrefixFree(es: seq<Entry>, fs: seq<Entry>, r: string, s: string, le: Order)
    requires TotalOrder(le) && WellFormed(Obj(es)) && WellFormed(Obj(fs))
    requires Stringify(Obj(es), le) + r == Stringify(Obj(fs), le) + s
    ensures r == s && Same(Obj(es), Obj(fs))
    decreases es, |Members(es, le)| + 2
  {
    var ms, ns := Sort(Members(es, le), ByKey(le)), Sort(Members(fs, le), ByKey(le));
    SortedMembers(es, le);
    SortedMembers(fs, le);
    ObjectBody(ms, r);
    ObjectBody(ns, s);
    MembersArePrefixFree(es, fs, ms, ns, r, s, le);
    SameMembersSameObject(es, fs, le);
  }

  /**
   Unique decodability: if two printed values, each followed by the end or a delimiter, read the
   same, then the values are the same and so is what follows.
   */
  lemma {:induction false} PrintedValuesArePrefixFree(a: Json, b: Json, r: string, s: string, le: Order)
    requires TotalOrder(le) && WellFormed(a) && WellFormed(b) && Stop(r) && Stop(s)
    requires Stringify(a, le) + r == Stringify(b, le) + s
    ensures r == s && Same(a, b)
    decreases a, 0
  {
    FirstCharTellsKind(a, r, le);
    FirstCharTellsKind(b, s, le);
    match a {
      case Num(n) => IntegerIsPrefixFree(n, b.n, r, s);
      case Str(x) => QuoteIsPrefixFree(x, b.s, r, s);
      case Arr(items) =>
        ArrayBody(items, r, le);
        ArrayBody(b.items, s, le);
        ItemsArePrefixFree(items, b.items, r, s, le);
      case Obj(es) => PrintedObjectsArePrefixFree(es, b.entries, r, s, le);
      case _ => SameTextRest(Stringify(a, le), r, s);
    }
  }

  // ---------------------------------------------------------------- the same value prints alike

  lemma {:induction false} SameItemsPrintAlike(xs: seq<Json>, ys: seq<Json>, le: Order)
    requires TotalOrder(le) && WellFormed(Arr(xs)) && WellFormed(Arr(ys)) && SameItems(xs, ys)
    ensures JoinItems(xs, le) == JoinItems(ys, le)
    decreases xs, 0
  {
    if xs != [] {
      SameValuesPrintAlike(xs[0], ys[0], le);
      SameItemsPrintAlike(xs[1..], ys[1..], le);
    }
  }

  lemma {:induction false} SameEntryPrintsAlike(es: seq<Entry>, fs: seq<Entry>, key: string, le: Order)
    requires TotalOrder(le) && WellFormed(Obj(es)) && WellFormed(Obj(fs)) && SameEntries(es, fs)
    requires !Find(es, key).Undefined? && !Find(fs, key).Undefined?
    ensures Stringify(Find(es, key), le) == Stringify(Find(fs, key), le)
    decreases es, 0
  {
    if es[0].key == key {
      var k := FindIndex(fs, key);
      SameValuesPrintAlike(es[0].value, fs[k].value, le);
    } else {
      SameEntryPrintsAlike(es[1..], fs, key, le);
    }
  }

  lemma {:induction false} SameObjectsPrintAlike(es: seq<Entry>, fs: seq<Entry>, le: Order)
    requires TotalOrder(le) && WellFormed(Obj(es)) && WellFormed(Obj(fs)) && Same(Obj(es), Obj(fs))
    ensures Stringify(Obj(es), le) == Stringify(Obj(fs), le)
    decreases es, 1
  {
    SortedMembers(es, le);
    SortedMembers(fs, le);
    forall m ensures Prints(es, m, le) <==> Prints(fs, m, le) {
      if !Find(es, m.key).Undefined? {
        SameEntryPrintsAlike(es, fs, m.key, le);
      }
    }
    SortedIsUnique(Sort(Members(es, le), ByKey(le)), Sort(Members(fs, le), ByKey(le)), ByKey(le));
  }

  lemma {:induction false} SameValuesPrintAlike(a: Json, b: Json, le: Order)
    requires TotalOrder(le) && WellFormed(a) && WellFormed(b) && Same(a, b)
    ensures Stringify(a, le) == Stringify(b, le)
    decreases a, 0
  {
    match a {
      case Arr(items) => SameItemsPrintAlike(items, b.items, le);
      case Obj(es) => SameObjectsPrintAlike(es, b.entries, le);
      case _ =>
    }
  }

  // ---------------------------------------------------------------- the fingerprint

  /** An exempt credential has one fixed fingerprint, an unset schedule none, and a set one its own. */
  lemma NoFingerprintIffUnset(schedule: Json, exempt: bool, le: Order)
    ensures WindowFingerprint(schedule, exempt, le) == None <==> !exempt && (schedule.Null? || schedule.Undefined?)
    ensures WindowFingerprint(schedule, exempt, le) == Some("exempt") <==> exempt
  {
    assert ("sched:" + Stringify(schedule, le))[0] == 's' && "exempt"[0] == 'e';
  }

  datatype WindowInput = WindowInput(schedule: Json, exempt: bool)

  /**
   The fingerprint is faithful: two windows get equal fingerprints iff both are exempt, or neither
   is and their schedules are both unset or the same value.
   */
  lemma FingerprintIsFaithful(a: WindowInput, b: WindowInput, le: Order)
    requires TotalOrder(le) && WellFormed(a.schedule) && WellFormed(b.schedule)
    ensures WindowFingerprint(a.schedule, a.exempt, le) == WindowFingerprint(b.schedule, b.exempt, le) <==>
            a.exempt == b.exempt && (a.exempt || Same(a.schedule, b.schedule))
  {
    var x, y := Stringify(a.schedule, le), Stringify(b.schedule, le);
    assert ("sched:" + x)[0] == 's' && ("sched:" + y)[0] == 's' && "exempt"[0] == 'e';
    assert ("sched:" + x)[6..] == x && ("sched:" + y)[6..] == y;
    if x == y {
      assert x + "" == y + "";
      PrintedValuesArePrefixFree(a.schedule, b.schedule, "", "", le);
    }
    if Same(a.schedule, b.schedule) {
      SameValuesPrintAlike(a.schedule, b.schedule, le);
    }
  }
}
