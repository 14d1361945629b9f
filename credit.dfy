/**
 * The card (credit) feed normaliser, `collect_credit_stmts` in sync.py:
 * card events whose raw date passes the start-date predicate are turned into
 * ledger records by category: anticipation discounts, simple purchases, and
 * purchases settled in several charges, one record per charge.
 */
module Credit {
  import opened Text
  import opened Dates
  import opened Records

  /** One charge of a purchase settled in parts, from the statement details. */
  datatype Charge = Charge(index: int, amount: int, postDate: CalendarDate)

  /** The `details` field of a card event, as `event.get('details', {}).get('charges')` reads it. */
  datatype Details =
    | Missing                      // no `details` key: no charges
    | Null                         // `details` is JSON null: `.get` raises
    | Present(hasCharges: bool)    // an object; whether its `charges` is set and not null

  /** A card-feed event; `amount` is in hundredths of the currency. */
  datatype CardEvent = CardEvent(
    id: string, time: CardTime, category: string, description: string,
    title: string, amount: int, details: Details)

  const Anticipation := "anticipate_event"
  const Purchase := "transaction"

  /** The currency marker an anticipation description carries the amount behind. */
  const Marker := "R$"

  /** The clause an anticipation description appends to the payee. */
  const DiscountClause := "Você ganhou um desconto"

  // ---------------------------------------------------------------------------
  // Filtering by date

  /** The events whose raw date (the first ten characters of `time`) passes `takeWhile`, in feed order. */
  function EventsInRange(feed: seq<CardEvent>, takeWhile: Date -> bool): (events: seq<CardEvent>)
    ensures forall e :: e in events <==> e in feed && takeWhile(e.time.date)
    ensures |events| <= |feed|
    decreases |feed|
  {
    if feed == [] then []
    else (if takeWhile(feed[0].time.date) then [feed[0]] else []) + EventsInRange(feed[1..], takeWhile)
  }

  /**
   * The filter keeps order and multiplicity: a single event is kept exactly
   * when its date passes, and the filter of a concatenation is the
   * concatenation of the filters.
   */
  lemma {:induction false} EventsInRangeConcat(a: seq<CardEvent>, b: seq<CardEvent>, takeWhile: Date -> bool)
    ensures forall e :: EventsInRange([e], takeWhile) == if takeWhile(e.time.date) then [e] else []
    ensures EventsInRange(a + b, takeWhile) == EventsInRange(a, takeWhile) + EventsInRange(b, takeWhile)
    decreases |a|
  {
    forall e
      ensures EventsInRange([e], takeWhile) == if takeWhile(e.time.date) then [e] else []
    {
      assert [e][1..] == [];
    }
    if a == [] {
      assert a + b == b;
    } else {
      var head := if takeWhile(a[0].time.date) then [a[0]] else [];
      TailOfConcat(a, b);
      EventsInRangeConcat(a[1..], b, takeWhile);
      ConcatAssoc(head, EventsInRange(a[1..], takeWhile), EventsInRange(b, takeWhile));
    }
  }

  // ---------------------------------------------------------------------------
  // Ordering charges

  predicate SortedByIndex(s: seq<Charge>) {
    forall i, j :: 0 <= i < j < |s| ==> s[i].index <= s[j].index
  }

  /** The charges of `s` whose index is `k`, in their order in `s`. */
  function WithIndex(s: seq<Charge>, k: int): seq<Charge>
    decreases |s|
  {
    if s == [] then [] else (if s[0].index == k then [s[0]] else []) + WithIndex(s[1..], k)
  }

  lemma WithIndexCons(c: Charge, s: seq<Charge>, k: int)
    ensures WithIndex([c] + s, k) == (if c.index == k then [c] else []) + WithIndex(s, k)
  {
    assert ([c] + s)[1..] == s;
  }

  /** `c` placed into `s` before the first charge whose index is not smaller. */
  function InsertByIndex(c: Charge, s: seq<Charge>): seq<Charge>
    decreases |s|
  {
    if s == [] || c.index <= s[0].index then [c] + s else [s[0]] + InsertByIndex(c, s[1..])
  }

  /** Python's `sorted(charges, key=lambda x: x['index'])`, as an insertion sort. */
  function SortByIndex(s: seq<Charge>): seq<Charge>
    decreases |s|
  {
    if s == [] then [] else InsertByIndex(s[0], SortByIndex(s[1..]))
  }

  /** In a sorted sequence no charge has a smaller index than the first. */
  lemma SortedHead(s: seq<Charge>)
    requires SortedByIndex(s) && s != []
    ensures forall y :: y in s ==> s[0].index <= y.index
  {
    forall y | y in s
      ensures s[0].index <= y.index
    {
      var i :| 0 <= i < |s| && s[i] == y;
      if i > 0 {
        assert 0 < i;
      }
    }
  }

  /** A charge placed before a sorted sequence of charges with no smaller index keeps it sorted. */
  lemma SortedCons(x: Charge, s: seq<Charge>)
    requires SortedByIndex(s) && forall y :: y in s ==> x.index <= y.index
    ensures SortedByIndex([x] + s)
  {
    var t := [x] + s;
    forall i, j | 0 <= i < j < |t|
      ensures t[i].index <= t[j].index
    {
      assert t[j] == s[j - 1];
      if i > 0 {
        assert t[i] == s[i - 1];
      }
    }
  }

  /** Inserting a charge adds exactly that charge. */
  lemma {:induction false} InsertPermutes(c: Charge, s: seq<Charge>)
    ensures multiset(InsertByIndex(c, s)) == multiset(s) + multiset{c}
    decreases |s|
  {
    if s != [] && c.index > s[0].index {
      InsertPermutes(c, s[1..]);
      assert s == [s[0]] + s[1..];
    }
  }

  lemma {:induction false} InsertKeepsOrder(c: Charge, s: seq<Charge>)
    requires SortedByIndex(s)
    ensures SortedByIndex(InsertByIndex(c, s))
    decreases |s|
  {
    if s == [] || c.index <= s[0].index {
      if s != [] {
        SortedHead(s);
      }
      SortedCons(c, s);
    } else {
      var rest := InsertByIndex(c, s[1..]);
      InsertKeepsOrder(c, s[1..]);
      InsertPermutes(c, s[1..]);
      SortedHead(s);
      forall x | x in rest
        ensures s[0].index <= x.index
      {
        assert x in multiset(rest);
        if x != c {
          assert x in multiset(s[1..]);
          assert x in s[1..];
        }
      }
      SortedCons(s[0], rest);
    }
  }

  lemma {:induction false} InsertIsStable(c: Charge, s: seq<Charge>, k: int)
    requires SortedByIndex(s)
    ensures WithIndex(InsertByIndex(c, s), k) == (if c.index == k then [c] else []) + WithIndex(s, k)
    decreases |s|
  {
    if s == [] || c.index <= s[0].index {
      WithIndexCons(c, s, k);
    } else {
      var rest := InsertByIndex(c, s[1..]);
      InsertIsStable(c, s[1..], k);
      WithIndexCons(s[0], rest, k);
      WithIndexCons(s[0], s[1..], k);
      assert s == [s[0]] + s[1..];
    }
  }

  /** Sorting keeps exactly the charges it is given. */
  lemma {:induction false} SortByIndexPermutes(s: seq<Charge>)
    ensures multiset(SortByIndex(s)) == multiset(s)
    decreases |s|
  {
    if s != [] {
      SortByIndexPermutes(s[1..]);
      InsertPermutes(s[0], SortByIndex(s[1..]));
      assert s == [s[0]] + s[1..];
    }
  }

  /** Sorting leaves the charges in non-decreasing index order. */
  lemma {:induction false} SortByIndexSorts(s: seq<Charge>)
    ensures SortedByIndex(SortByIndex(s))
    decreases |s|
  {
    if s != [] {
      SortByIndexSorts(s[1..]);
      InsertKeepsOrder(s[0], SortByIndex(s[1..]));
    }
  }

  /** Sorting keeps the feed order among charges with the same index. */
  lemma {:induction false} SortByIndexIsStable(s: seq<Charge>, k: int)
    ensures WithIndex(SortByIndex(s), k) == WithIndex(s, k)
    decreases |s|
  {
    if s != [] {
      var sorted := SortByIndex(s[1..]);
      SortByIndexIsStable(s[1..], k);
      SortByIndexSorts(s[1..]);
      InsertIsStable(s[0], sorted, k);
      WithIndexCons(s[0], s[1..], k);
      assert s == [s[0]] + s[1..];
    }
  }

  /**
   * The charges come out ascending by index, as a permutation of the input,
   * and charges with equal indices keep their original order (the sort is stable).
   */
  lemma SortByIndexIsStableSort(s: seq<Charge>)
    ensures SortedByIndex(SortByIndex(s)) && multiset(SortByIndex(s)) == multiset(s)
    ensures forall k :: WithIndex(SortByIndex(s), k) == WithIndex(s, k)
  {
    SortByIndexSorts(s);
    SortByIndexPermutes(s);
    forall k
      ensures WithIndex(SortByIndex(s), k) == WithIndex(s, k)
    {
      SortByIndexIsStable(s, k);
    }
  }

  // ---------------------------------------------------------------------------
  // The records of one event

  /** The ledger id of the `i`-th (1-based) charge of event `id`: the id without dashes, `-`, then `i`. */
  function SplitImportId(id: string, i: nat): string {
    Remove(id, '-') + "-" + NatToString(i)
  }

  /** The record of the `i`-th of `n` charges of a purchase (sync.py lines 79-86). */
  function ChargeTx(e: CardEvent, c: Charge, i: nat, n: nat, account: string): Tx {
    Tx(importId := SplitImportId(e.id, i), amount := c.amount * 10 * -1, payeeName := e.description,
       memo := Pad2(i) + "/" + Pad2(n), date := c.postDate, accountId := account)
  }

  /** One record per charge of `charges`, in order, numbered from 1. */
  function ChargeTxs(e: CardEvent, charges: seq<Charge>, account: string): (txs: seq<Tx>)
    ensures |txs| == |charges|
  {
    seq(|charges|, i requires 0 <= i < |charges| => ChargeTx(e, charges[i], i + 1, |charges|, account))
  }

  /** The record of a purchase without charge details (sync.py lines 66-73). */
  function PurchaseTx(e: CardEvent, account: string): Tx {
    Tx(importId := e.id, amount := e.amount * 10 * -1, payeeName := e.description,
       memo := e.title, date := ShiftedDate(e.time), accountId := account)
  }

  /**
   * The payee and amount an anticipation description carries (sync.py lines
   * 52-54): it must split in exactly two on the marker; the part after it,
   * commas removed, is an integer, scaled by 10; the part before it, cut at the
   * discount clause and stripped, is the payee and must not be empty.
   */
  function ParseAnticipation(id: string, description: string): Result<(string, int)> {
    var parts := Split(description, Marker);
    if |parts| != 2 then Err(AnticipationError(id, MarkerCount))
    else
      match ParseInt(Remove(parts[1], ','))
      case None => Err(AnticipationError(id, BadAmount))
      case Some(v) =>
        var payee := Strip(Split(parts[0], DiscountClause)[0]);
        if payee == [] then Err(AnticipationError(id, EmptyPayee)) else Ok((payee, v * 10))
  }

  /** The ledger records one card event in range yields (sync.py lines 50-86), or the fault it raises. */
  function EventTxs(e: CardEvent, statement: CardEvent -> seq<Charge>, account: string): Result<seq<Tx>> {
    if e.category == Anticipation then
      match ParseAnticipation(e.id, e.description)
      case Err(err) => Err(err)
      case Ok(fields) =>
        Ok([Tx(importId := e.id, amount := fields.1, payeeName := fields.0,
               memo := e.title, date := ShiftedDate(e.time), accountId := account)])
    else if e.category != Purchase then Ok([])
    else if e.details.Null? then Err(DetailsNull(e.id))
    else if e.details == Present(true) then Ok(ChargeTxs(e, SortByIndex(statement(e)), account))
    else Ok([PurchaseTx(e, account)])
  }

  /** The ids of a split purchase's records are pairwise distinct: the suffix `i` is not padded but still unique. */
  lemma SplitImportIdsDistinct(id: string, i: nat, j: nat)
    requires i != j
    ensures SplitImportId(id, i) != SplitImportId(id, j)
  {
    var p := Remove(id, '-') + "-";
    if SplitImportId(id, i) == SplitImportId(id, j) {
      assert (p + NatToString(i))[|p|..] == NatToString(i);
      assert (p + NatToString(j))[|p|..] == NatToString(j);
      NatToStringInjective(i, j);
    }
  }

  /** No record of a split purchase reuses the event's own id, the id an unsplit purchase would get. */
  lemma SplitImportIdIsNew(id: string, i: nat)
    ensures SplitImportId(id, i) != id
  {
    var bare := Remove(id, '-');
    var pre := bare + "-";
    var digits := NatToString(i);
    assert '-' !in digits by {
      forall k | 0 <= k < |digits| ensures digits[k] != '-' { assert IsDigit(digits[k]); }
    }
    RemoveConcat(pre, digits, '-');
    RemoveConcat(bare, "-", '-');
    assert Remove("-", '-') == [] by {
      assert "-"[1..] == [];
    }
    assert Remove(pre, '-') == bare;
    assert |Remove(pre + digits, '-')| == |bare| + |digits|;
    assert SplitImportId(id, i) == pre + digits;
  }

  /** The fields of each record of a split purchase. */
  lemma ChargeTxsFields(e: CardEvent, charges: seq<Charge>, account: string)
    ensures var txs := ChargeTxs(e, charges, account);
      forall i :: 0 <= i < |txs| ==>
        && txs[i].importId == SplitImportId(e.id, i + 1)
        && txs[i].memo == Pad2(i + 1) + "/" + Pad2(|charges|)
        && txs[i].date == charges[i].postDate
        && txs[i].amount == -10 * charges[i].amount
        && txs[i].payeeName == e.description
        && txs[i].accountId == account
  {
    var txs := ChargeTxs(e, charges, account);
    forall i | 0 <= i < |txs|
      ensures txs[i] == ChargeTx(e, charges[i], i + 1, |charges|, account)
    {
    }
  }

  /** Records numbered with split import ids from 1 have pairwise distinct ids, none of them `id`. */
  lemma SplitIdsUnique(id: string, txs: seq<Tx>)
    requires forall i :: 0 <= i < |txs| ==> txs[i].importId == SplitImportId(id, i + 1)
    ensures forall i, j :: 0 <= i < j < |txs| ==> txs[i].importId != txs[j].importId
    ensures forall i :: 0 <= i < |txs| ==> txs[i].importId != id
  {
    forall i, j | 0 <= i < j < |txs|
      ensures txs[i].importId != txs[j].importId
    {
      SplitImportIdsDistinct(id, i + 1, j + 1);
    }
    forall i | 0 <= i < |txs|
      ensures txs[i].importId != id
    {
      SplitImportIdIsNew(id, i + 1);
    }
  }

  /** The records of a split purchase have pairwise distinct ids, none of them the event's own id. */
  lemma ChargeTxsIds(e: CardEvent, charges: seq<Charge>, account: string)
    ensures var txs := ChargeTxs(e, charges, account);
      && (forall i, j :: 0 <= i < j < |txs| ==> txs[i].importId != txs[j].importId)
      && (forall i :: 0 <= i < |txs| ==> txs[i].importId != e.id)
  {
    ChargeTxsFields(e, charges, account);
    SplitIdsUnique(e.id, ChargeTxs(e, charges, account));
  }

  /**
   * A purchase with charge details yields one record per charge of the
   * statement, in ascending index order (ties in statement order): record `i`
   * (1-based) has id `<id without dashes>-<i>`, memo `ii/NN`, the charge's own
   * date, ten times the charge amount negated, and the event description as
   * payee; the ids are pairwise distinct and differ from the event id.
   */
  lemma SplitPurchaseRecords(e: CardEvent, statement: CardEvent -> seq<Charge>, account: string)
    requires e.category == Purchase && e.details == Present(true)
    ensures var r := EventTxs(e, statement, account);
      var charges := SortByIndex(statement(e));
      && r.Ok? && |r.value| == |statement(e)| == |charges|
      && SortedByIndex(charges) && multiset(charges) == multiset(statement(e))
      && (forall k :: WithIndex(charges, k) == WithIndex(statement(e), k))
      && (forall i :: 0 <= i < |r.value| ==>
            && r.value[i].importId == Remove(e.id, '-') + "-" + NatToString(i + 1)
            && r.value[i].memo == Pad2(i + 1) + "/" + Pad2(|charges|)
            && r.value[i].date == charges[i].postDate
            && r.value[i].amount == -10 * charges[i].amount
            && r.value[i].payeeName == e.description
            && r.value[i].accountId == account)
      && (forall i, j :: 0 <= i < j < |r.value| ==> r.value[i].importId != r.value[j].importId)
      && (forall i :: 0 <= i < |r.value| ==> r.value[i].importId != e.id)
  {
    var charges := SortByIndex(statement(e));
    SortByIndexIsStableSort(statement(e));
    assert |charges| == |statement(e)| by {
      assert |multiset(charges)| == |multiset(statement(e))|;
    }
    var txs := ChargeTxs(e, charges, account);
    assert EventTxs(e, statement, account) == Ok(txs);
    ChargeTxsFields(e, charges, account);
    ChargeTxsIds(e, charges, account);
  }

  /**
   * How one card event is classified (sync.py lines 51-86): anticipation
   * events yield their parsed discount, other categories than purchases yield
   * nothing, a purchase whose details are JSON null raises, and a purchase
   * without charges yields one record of ten times its amount, negated, dated
   * three hours before its timestamp.
   */
  lemma EventClassification(e: CardEvent, statement: CardEvent -> seq<Charge>, account: string)
    ensures var r := EventTxs(e, statement, account);
      && (e.category == Anticipation ==>
            var p := ParseAnticipation(e.id, e.description);
            (p.Err? ==> r == Err(p.error))
            && (p.Ok? ==> r == Ok([Tx(e.id, p.value.1, p.value.0, e.title, ShiftedDate(e.time), account)])))
      && (e.category != Anticipation && e.category != Purchase ==> r == Ok([]))
      && (e.category == Purchase && e.details == Null ==> r == Err(DetailsNull(e.id)))
      && (e.category == Purchase && e.details in {Missing, Present(false)} ==>
            r == Ok([Tx(e.id, -10 * e.amount, e.description, e.title, ShiftedDate(e.time), account)]))
  {
  }

  /** A description without the currency marker aborts the run; the model's fault also names the event. */
  lemma MissingMarkerIsFault(id: string, description: string)
    requires !Contains(description, Marker)
    ensures ParseAnticipation(id, description) == Err(AnticipationError(id, MarkerCount))
  {
    SplitWithoutSep(description, Marker);
  }

  /**
   * What a readable anticipation description is made of: the text before the
   * one currency marker and the integer after it (times 10 is the amount).
   * `head` is the text before the marker cut at the first discount clause:
   * no clause starts inside it, and when it is shorter than that text a
   * clause starts right after it.  The payee is `head` stripped: non-empty,
   * with no white space at either end, and a slice of `head`.
   */
  lemma AnticipationFields(id: string, description: string) returns (before: string, after: string, head: string)
    requires ParseAnticipation(id, description).Ok?
    ensures description == before + Marker + after
    ensures !Contains(before, Marker) && !Contains(after, Marker)
    ensures ParseInt(Remove(after, ',')).Some?
    ensures ParseAnticipation(id, description).value.1 == 10 * ParseInt(Remove(after, ',')).value
    ensures head <= before
    ensures forall i :: 0 <= i < |head| ==> !MatchAt(before, DiscountClause, i)
    ensures |head| < |before| ==> MatchAt(before, DiscountClause, |head|)
    ensures var payee := ParseAnticipation(id, description).value.0;
      && payee == Strip(head)
      && payee != [] && !IsSpace(payee[0]) && !IsSpace(payee[|payee| - 1])
      && exists k :: 0 <= k <= |head| - |payee| && MatchAt(head, payee, k)
  {
    var parts := Split(description, Marker);
    SplitJoin(description, Marker);
    SplitPartsAvoidSep(description, Marker);
    before, after := parts[0], parts[1];
    JoinTwo(parts, Marker);
    head := Split(before, DiscountClause)[0];
    SplitHead(before, DiscountClause);
    var lead := StripIsTrimmedSlice(head);
    assert MatchAt(head, Strip(head), lead);
  }

  /** No occurrence of the marker starts inside a marker-free text placed before the marker. */
  lemma MarkerNotBefore(payee: string, rest: string)
    requires !Contains(payee, Marker)
    ensures forall i :: 0 <= i < |payee| ==> !MatchAt(payee + Marker + rest, Marker, i)
  {
    var d := payee + Marker + rest;
    forall i | 0 <= i < |payee|
      ensures !MatchAt(d, Marker, i)
    {
      assert |Marker| == 2;
      if i + 2 <= |payee| {
        assert d[i] == payee[i] && d[i + 1] == payee[i + 1];
        assert !MatchAt(payee, Marker, i);
      } else {
        assert d[i + 1] == 'R';
      }
    }
  }

  /** A string of digits holds neither the marker nor a comma. */
  lemma DigitsAreBare(digits: string)
    requires AllDigits(digits)
    ensures !Contains(digits, Marker) && ',' !in digits
  {
    forall i | 0 <= i <= |digits| - 2
      ensures !MatchAt(digits, Marker, i)
    {
      assert IsDigit(digits[i]);
    }
    forall k | 0 <= k < |digits|
      ensures digits[k] != ','
    {
      assert IsDigit(digits[k]);
    }
  }

  /** `<payee>R$<digits>` with a marker-free payee splits into exactly the payee and the digits. */
  lemma MarkerSplit(payee: string, n: nat)
    requires !Contains(payee, Marker)
    ensures Split(payee + Marker + NatToString(n), Marker) == [payee, NatToString(n)]
  {
    var digits := NatToString(n);
    MarkerNotBefore(payee, digits);
    SplitAtFirst(payee, Marker, digits);
    DigitsAreBare(digits);
    SplitWithoutSep(digits, Marker);
  }

  /**
   * Which descriptions with exactly one currency marker are read, and how:
   * the text after the marker, commas removed, must be an integer `v`, and
   * the text before it, cut at the first discount clause and stripped, must
   * not be empty; the record then carries that payee and `v * 10`.
   */
  lemma AnticipationOfOneMarker(id: string, before: string, after: string)
    requires !Contains(before, Marker) && !Contains(after, Marker)
    ensures var r := ParseAnticipation(id, before + Marker + after);
      var payee := Strip(Split(before, DiscountClause)[0]);
      match ParseInt(Remove(after, ','))
      case None => r == Err(AnticipationError(id, BadAmount))
      case Some(v) => r == if payee == [] then Err(AnticipationError(id, EmptyPayee)) else Ok((payee, v * 10))
  {
    var parts := Split(before + Marker + after, Marker);
    MarkerNotBefore(before, after);
    SplitAtFirst(before, Marker, after);
    SplitWithoutSep(after, Marker);
    assert parts == [before, after];
  }

  /**
   * Reading back a description written as `<payee>R$<n>`: for a trimmed payee
   * free of the marker and the discount clause, the record carries that payee
   * and ten times `n`.
   */
  lemma AnticipationRoundTrip(id: string, payee: string, n: nat)
    requires payee != [] && !IsSpace(payee[0]) && !IsSpace(payee[|payee| - 1])
    requires !Contains(payee, Marker) && !Contains(payee, DiscountClause)
    ensures ParseAnticipation(id, payee + Marker + NatToString(n)) == Ok((payee, 10 * n))
  {
    var digits := NatToString(n);
    DigitsAreBare(digits);
    ParseIntRoundTrip(n);
    SplitWithoutSep(payee, DiscountClause);
    StripTrimmed(payee);
    assert Remove(digits, ',') == digits;
    assert Strip(Split(payee, DiscountClause)[0]) == payee;
    AnticipationReadable(id, payee, digits, n);
  }

  /**
   * A description with one marker whose amount reads as `v` and whose payee
   * is not empty is accepted, with that payee and ten times `v`.
   */
  lemma AnticipationReadable(id: string, before: string, after: string, v: int)
    requires !Contains(before, Marker) && !Contains(after, Marker)
    requires ParseInt(Remove(after, ',')) == Some(v) && Strip(Split(before, DiscountClause)[0]) != []
    ensures ParseAnticipation(id, before + Marker + after) == Ok((Strip(Split(before, DiscountClause)[0]), 10 * v))
  {
    AnticipationOfOneMarker(id, before, after);
    assert v * 10 == 10 * v;
  }

  /**
   * A description with a discount clause and a comma in the amount,
   * "Loja XYZ Você ganhou um desconto de R$12,34": the payee is the text
   * before the clause, and `12,34` reads as 1234.
   */
  lemma DiscountedAnticipation(id: string)
    ensures ParseAnticipation(id, "Loja XYZ " + DiscountClause + " de " + Marker + "12,34") == Ok(("Loja XYZ", 12340))
  {
    var name, rest, after := "Loja XYZ ", " de ", "12,34";
    var before := name + DiscountClause + rest;
    ExampleLetters();
    HeadAbsent(before, Marker);
    HeadAbsent(after, Marker);
    AnticipationOfOneMarker(id, before, after);
    SplitAtHead(name, DiscountClause, rest);
    StrippedName();
    AmountWithComma();
  }

  /** The first letters of the marker and of the discount clause are absent from the example's parts. */
  lemma ExampleLetters()
    ensures 'R' !in "Loja XYZ " + DiscountClause + " de " && 'R' !in "12,34"
    ensures 'V' !in "Loja XYZ "
  {
    assert 'R' !in "Loja XYZ " && 'R' !in DiscountClause && 'R' !in " de ";
  }

  lemma StrippedName()
    ensures Strip("Loja XYZ ") == "Loja XYZ"
  {
    assert "Loja XYZ "[..8] == "Loja XYZ";
  }

  /** `int("12,34".replace(",", "")) == 1234`. */
  lemma AmountWithComma()
    ensures ParseInt(Remove("12,34", ',')) == Some(1234)
  {
    assert "12" + [','] + "34" == "12,34";
    RemoveOne("12", ',', "34");
    PrintedTwelveThirtyFour();
    ParseIntRoundTrip(1234);
  }

  /** `str(1234) == "1234"`. */
  lemma PrintedTwelveThirtyFour()
    ensures NatToString(1234) == "12" + "34"
  {
    assert NatToString(1) == ['1'];
    assert NatToString(12) == ['1'] + ['2'];
    assert NatToString(123) == ['1'] + ['2'] + ['3'];
    assert NatToString(1234) == ['1'] + ['2'] + ['3'] + ['4'];
  }

  // ---------------------------------------------------------------------------
  // The whole feed

  /** The records of `events` in order, or the first fault one of them raises. */
  function CreditTxsFrom(events: seq<CardEvent>, statement: CardEvent -> seq<Charge>, account: string): Result<seq<Tx>>
    decreases |events|
  {
    if events == [] then Ok([])
    else
      match EventTxs(events[0], statement, account)
      case Err(err) => Err(err)
      case Ok(txs) => Prepend(txs, CreditTxsFrom(events[1..], statement, account))
  }

  lemma CreditTxsFromStep(events: seq<CardEvent>, j: nat, statement: CardEvent -> seq<Charge>, account: string)
    requires j < |events|
    ensures var r := EventTxs(events[j], statement, account);
      CreditTxsFrom(events[j..], statement, account)
        == if r.Err? then Err(r.error) else Prepend(r.value, CreditTxsFrom(events[j + 1..], statement, account))
  {
    assert events[j..][0] == events[j] && events[j..][1..] == events[j + 1..];
  }

  /**
   * The feed is all or nothing: it yields records exactly when no event in it
   * raises, and otherwise the fault of the first event that does.
   */
  lemma {:induction false} CreditAllOrNothing(events: seq<CardEvent>, statement: CardEvent -> seq<Charge>, account: string)
    ensures var r := CreditTxsFrom(events, statement, account);
      && (r.Ok? <==> forall i :: 0 <= i < |events| ==> EventTxs(events[i], statement, account).Ok?)
      && (r.Err? ==> exists i :: 0 <= i < |events| && EventTxs(events[i], statement, account) == Err(r.error)
                       && forall j :: 0 <= j < i ==> EventTxs(events[j], statement, account).Ok?)
    decreases |events|
  {
    if events != [] {
      CreditAllOrNothing(events[1..], statement, account);
      assert forall i :: 1 <= i < |events| ==> events[1..][i - 1] == events[i];
      var r := CreditTxsFrom(events, statement, account);
      if r.Err? && EventTxs(events[0], statement, account).Ok? {
        var i :| 0 <= i < |events[1..]| && EventTxs(events[1..][i], statement, account) == Err(r.error)
          && forall j :: 0 <= j < i ==> EventTxs(events[1..][j], statement, account).Ok?;
        assert EventTxs(events[i + 1], statement, account) == Err(r.error);
        forall j | 0 <= j < i + 1
          ensures EventTxs(events[j], statement, account).Ok?
        {
          if j > 0 { assert events[j] == events[1..][j - 1]; }
        }
      }
    }
  }

  /**
   * The feed is read event by event in order: one event gives its own
   * records or fault, and the records of `a + b` are those of `a` followed
   * by those of `b`, unless `a` raises first.
   */
  lemma {:induction false} CreditTxsConcat(a: seq<CardEvent>, b: seq<CardEvent>, statement: CardEvent -> seq<Charge>, account: string)
    ensures forall e :: CreditTxsFrom([e], statement, account) == EventTxs(e, statement, account)
    ensures var ra := CreditTxsFrom(a, statement, account);
      CreditTxsFrom(a + b, statement, account)
        == if ra.Err? then ra else Prepend(ra.value, CreditTxsFrom(b, statement, account))
    decreases |a|
  {
    forall e ensures CreditTxsFrom([e], statement, account) == EventTxs(e, statement, account) {
      assert [e][1..] == [];
      var r := EventTxs(e, statement, account);
      if r.Ok? { assert r.value + [] == r.value; }
    }
    if a == [] {
      assert a + b == b;
      PrependNothing(CreditTxsFrom(b, statement, account));
    } else {
      TailOfConcat(a, b);
      CreditTxsConcat(a[1..], b, statement, account);
      var r := EventTxs(a[0], statement, account);
      var rt := CreditTxsFrom(a[1..], statement, account);
      if r.Ok? && rt.Ok? {
        PrependTwice(r.value, rt.value, CreditTxsFrom(b, statement, account));
      }
    }
  }

  /** What `list(collect_credit_stmts(...))` gives: the records of the events in range, or a fault. */
  function CreditFeed(feed: seq<CardEvent>, takeWhile: Date -> bool, statement: CardEvent -> seq<Charge>, account: string): Result<seq<Tx>> {
    CreditTxsFrom(EventsInRange(feed, takeWhile), statement, account)
  }

  /**
   * The records of a feed in two parts are those of the first part followed
   * by those of the second, unless the first raises: the range filter and
   * the reading both go event by event.
   */
  lemma CreditFeedConcat(a: seq<CardEvent>, b: seq<CardEvent>, takeWhile: Date -> bool, statement: CardEvent -> seq<Charge>, account: string)
    ensures var ra := CreditFeed(a, takeWhile, statement, account);
      CreditFeed(a + b, takeWhile, statement, account)
        == if ra.Err? then ra else Prepend(ra.value, CreditFeed(b, takeWhile, statement, account))
  {
    EventsInRangeConcat(a, b, takeWhile);
    CreditTxsConcat(EventsInRange(a, takeWhile), EventsInRange(b, takeWhile), statement, account);
  }

  /**
   * The loop over the sorted charges of a split purchase (sync.py lines
   * 78-86): one record per charge, numbered from 1.
   */
  method ChargeRecords(e: CardEvent, charges: seq<Charge>, account: string) returns (out: seq<Tx>)
    ensures out == ChargeTxs(e, charges, account)
  {
    out := [];
    for i := 0 to |charges|
      invariant out == ChargeTxs(e, charges, account)[..i]
    {
      out := out + [ChargeTx(e, charges[i], i + 1, |charges|, account)];
    }
    assert out == ChargeTxs(e, charges, account)[..|charges|];
  }

  /**
   * The body of the loop over events in `collect_credit_stmts` (sync.py lines
   * 50-86): the records one event yields, the charges of a split purchase
   * walked in index order; `statement` stands for the statement details lookup.
   */
  method EventRecords(e: CardEvent, statement: CardEvent -> seq<Charge>, account: string)
    returns (r: Result<seq<Tx>>)
    ensures r == EventTxs(e, statement, account)
  {
    var date := ShiftedDate(e.time);
    if e.category == Anticipation {
      var parsed := ParseAnticipation(e.id, e.description);
      if parsed.Err? {
        return Err(parsed.error);
      }
      var (payee, amount) := parsed.value;
      return Ok([Tx(importId := e.id, amount := amount, payeeName := payee,
                    memo := e.title, date := date, accountId := account)]);
    } else if e.category != Purchase {
      return Ok([]);
    } else if e.details.Null? {
      return Err(DetailsNull(e.id));
    } else if e.details == Present(true) {
      var charges := SortByIndex(statement(e));
      var out := ChargeRecords(e, charges, account);
      return Ok(out);
    } else {
      return Ok([Tx(importId := e.id, amount := e.amount * 10 * -1, payeeName := e.description,
                    memo := e.title, date := date, accountId := account)]);
    }
  }

  /**
   * `collect_credit_stmts` (sync.py lines 45-86): filters the feed by raw date,
   * then walks the events appending their records; a fault aborts the run.
   */
  method CollectCredit(feed: seq<CardEvent>, takeWhile: Date -> bool, statement: CardEvent -> seq<Charge>, account: string)
    returns (r: Result<seq<Tx>>)
    ensures r == CreditFeed(feed, takeWhile, statement, account)
  {
    var events := EventsInRange(feed, takeWhile);
    var out: seq<Tx> := [];
    assert events[0..] == events;
    PrependNothing(CreditTxsFrom(events, statement, account));
    for j := 0 to |events|
      invariant CreditTxsFrom(events, statement, account) == Prepend(out, CreditTxsFrom(events[j..], statement, account))
    {
      CreditTxsFromStep(events, j, statement, account);
      var txs := EventRecords(events[j], statement, account);
      if txs.Err? {
        return Err(txs.error);
      }
      PrependTwice(out, txs.value, CreditTxsFrom(events[j + 1..], statement, account));
      out := out + txs.value;
    }
    assert events[|events|..] == [];
    assert out + [] == out;
    return Ok(out);
  }
}
