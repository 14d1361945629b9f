/**
 * The sync run of sync.py's `sync` reduced to its decisions: both feeds are
 * read with the same inclusive start-date predicate (checking first), credit
 * records dated after today are copied with today's date while the originals
 * are kept for the manual-adjustment report, and the batch submitted to the
 * ledger is the checking records followed by the capped credit records.
 */
module Sync {
  import opened Text
  import opened Dates
  import opened Records
  import opened Credit
  import opened Checking

  /** `after_starting_date` (sync.py lines 153-154): on or after the import date. */
  function AfterStartingDate(importDate: Date): (keep: Date -> bool)
    ensures keep(importDate)
    ensures forall d :: keep(d) <==> !Before(d, importDate)
  {
    d => OnOrBefore(importDate, d)
  }

  /** `before_today` (sync.py lines 156-157): the record's date is today or earlier. */
  predicate BeforeToday(tx: Tx, today: Date)
    ensures BeforeToday(tx, today) <==> !Before(today, tx.date)
    ensures tx.date == today ==> BeforeToday(tx, today)
  {
    OnOrBefore(tx.date, today)
  }

  /**
   * `cap_date` (sync.py lines 159-165): a record dated after today becomes a
   * copy dated today; any other record is returned as it is.
   */
  function CapDate(tx: Tx, today: Date): (c: Tx)
    ensures c == tx <==> BeforeToday(tx, today)
    ensures !BeforeToday(tx, today) ==> c == tx.(date := today)
    ensures c == tx.(date := c.date)
    ensures OnOrBefore(c.date, today)
    ensures OnOrBefore(c.date, tx.date)
  {
    if BeforeToday(tx, today) then tx else tx.(date := today)
  }

  /** `[cap_date(tx) for tx in credit_txs]` (sync.py line 182). */
  function CapAll(txs: seq<Tx>, today: Date): (capped: seq<Tx>)
    ensures |capped| == |txs|
  {
    seq(|txs|, i requires 0 <= i < |txs| => CapDate(txs[i], today))
  }

  /** `[tx for tx in credit_txs if not before_today(tx)]` (sync.py line 181). */
  function AdjustDateTxs(txs: seq<Tx>, today: Date): seq<Tx>
    decreases |txs|
  {
    if txs == [] then []
    else (if BeforeToday(txs[0], today) then [] else [txs[0]]) + AdjustDateTxs(txs[1..], today)
  }

  /**
   * Capping keeps every record in place: a record dated today or earlier is
   * kept as it is, and any other becomes the same record dated today.  Every
   * capped date is today or earlier and never later than the original, and
   * capping twice is capping once.
   */
  lemma CapAllProperties(txs: seq<Tx>, today: Date)
    ensures var capped := CapAll(txs, today);
      && (forall i :: 0 <= i < |txs| ==>
            && (BeforeToday(txs[i], today) ==> capped[i] == txs[i])
            && (!BeforeToday(txs[i], today) ==> capped[i] == txs[i].(date := today))
            && OnOrBefore(capped[i].date, txs[i].date) && OnOrBefore(capped[i].date, today))
      && CapAll(capped, today) == capped
  {
    var capped := CapAll(txs, today);
    forall i | 0 <= i < |txs|
      ensures CapAll(capped, today)[i] == capped[i]
    {
      assert BeforeToday(capped[i], today);
    }
  }

  /**
   * The adjustment list keeps the order and multiplicity of the credit
   * records: a single record is listed exactly when it is dated after today,
   * and the list of a concatenation is the concatenation of the lists.
   */
  lemma {:induction false} AdjustmentsConcat(a: seq<Tx>, b: seq<Tx>, today: Date)
    ensures forall t :: AdjustDateTxs([t], today) == if Before(today, t.date) then [t] else []
    ensures AdjustDateTxs(a + b, today) == AdjustDateTxs(a, today) + AdjustDateTxs(b, today)
    decreases |a|
  {
    forall t
      ensures AdjustDateTxs([t], today) == if Before(today, t.date) then [t] else []
    {
      assert [t][1..] == [];
    }
    if a == [] {
      assert a + b == b;
    } else {
      var head := if BeforeToday(a[0], today) then [] else [a[0]];
      TailOfConcat(a, b);
      AdjustmentsConcat(a[1..], b, today);
      ConcatAssoc(head, AdjustDateTxs(a[1..], today), AdjustDateTxs(b, today));
    }
  }

  /** Capping a non-empty list caps its head and then its tail. */
  lemma CapAllCons(txs: seq<Tx>, today: Date)
    requires txs != []
    ensures CapAll(txs, today) == [CapDate(txs[0], today)] + CapAll(txs[1..], today)
  {
    var capped := CapAll(txs, today);
    var cons := [CapDate(txs[0], today)] + CapAll(txs[1..], today);
    forall i | 0 <= i < |txs|
      ensures capped[i] == cons[i]
    {
      if i > 0 {
        assert cons[i] == CapAll(txs[1..], today)[i - 1];
      }
    }
  }

  /**
   * The adjustment list is exactly the credit records dated after today (the
   * originals, in their order), so it is empty exactly when capping changes
   * nothing.
   */
  lemma {:induction false} AdjustmentsAreFutureRecords(txs: seq<Tx>, today: Date)
    ensures forall t :: t in AdjustDateTxs(txs, today) <==> t in txs && Before(today, t.date)
    ensures |AdjustDateTxs(txs, today)| <= |txs|
    ensures AdjustDateTxs(txs, today) == [] <==> CapAll(txs, today) == txs
    decreases |txs|
  {
    if txs != [] {
      AdjustmentsAreFutureRecords(txs[1..], today);
      HeadTail(txs);
      CapAllCons(txs, today);
      ConsEqual(CapDate(txs[0], today), CapAll(txs[1..], today), txs[0], txs[1..]);
    }
  }

  /** What a sync run hands over: the batch submitted to the ledger and the manual-adjustment list. */
  datatype Outcome = Outcome(batch: seq<Tx>, adjustments: seq<Tx>)

  /** The batch and adjustment list built from the two collected lists (sync.py lines 181-182, 189). */
  function Assemble(checking: seq<Tx>, credit: seq<Tx>, today: Date): Outcome {
    Outcome(checking + CapAll(credit, today), AdjustDateTxs(credit, today))
  }

  /**
   * The batch holds the checking records unchanged, then the credit records
   * in order: each one dated today or earlier as it is, any other one dated
   * today.  The adjustment list holds exactly the credit records dated after
   * today.
   */
  lemma AssembleBatch(checking: seq<Tx>, credit: seq<Tx>, today: Date)
    ensures var out := Assemble(checking, credit, today);
      && |out.batch| == |checking| + |credit|
      && out.batch[..|checking|] == checking
      && (forall i :: |checking| <= i < |out.batch| ==>
            && (BeforeToday(credit[i - |checking|], today) ==> out.batch[i] == credit[i - |checking|])
            && (!BeforeToday(credit[i - |checking|], today) ==> out.batch[i] == credit[i - |checking|].(date := today)))
      && (forall t :: t in out.adjustments <==> t in credit && Before(today, t.date))
  {
    var out := Assemble(checking, credit, today);
    CapAllProperties(credit, today);
    AdjustmentsAreFutureRecords(credit, today);
    assert out.batch[..|checking|] == checking;
    forall i | |checking| <= i < |out.batch|
      ensures BeforeToday(credit[i - |checking|], today) ==> out.batch[i] == credit[i - |checking|]
      ensures !BeforeToday(credit[i - |checking|], today) ==> out.batch[i] == credit[i - |checking|].(date := today)
    {
      assert out.batch[i] == CapAll(credit, today)[i - |checking|];
    }
  }

  /**
   * Read with `after_starting_date`, the checking feed yields the served
   * records up to the first one dated before the import date, so every
   * checking record is dated on or after it.
   */
  lemma CheckingAfterImportDate(pages: seq<Page>, importDate: Date, convert: AccountNode -> Option<Tx>)
    ensures var r := CheckingFrom(pages, 0, AfterStartingDate(importDate), convert);
      r.Ok? ==>
        && r.value == TakeWhile(ServedFrom(pages, 0, convert), AfterStartingDate(importDate))
        && forall i :: 0 <= i < |r.value| ==> OnOrBefore(importDate, r.value[i].date)
  {
    var keep := AfterStartingDate(importDate);
    CheckingFromIsTakeWhile(pages, 0, keep, convert);
    var r := CheckingFrom(pages, 0, keep, convert);
    if r.Ok? {
      forall i | 0 <= i < |r.value|
        ensures OnOrBefore(importDate, r.value[i].date)
      {
        assert keep(r.value[i].date);
      }
    }
  }

  /** The run on explicit inputs: both feed results (checking first), then capping and concatenation. */
  function SyncRun(
    pages: seq<Page>, cardFeed: seq<CardEvent>, statement: CardEvent -> seq<Charge>,
    importDate: Date, today: Date, checkingAccount: string, creditAccount: string): Result<Outcome>
  {
    match CheckingFeed(pages, AfterStartingDate(importDate), checkingAccount)
    case Err(e) => Err(e)
    case Ok(checking) =>
      match CreditFeed(cardFeed, AfterStartingDate(importDate), statement, creditAccount)
      case Err(e) => Err(e)
      case Ok(credit) => Ok(Assemble(checking, credit, today))
  }

  /**
   * The body of `sync` from the collection of both feeds to the batch
   * (sync.py lines 178-189); `today` stands for `datetime.today()`, and the
   * ledger submission and reporting are not modelled.
   */
  method Sync(
    pages: seq<Page>, cardFeed: seq<CardEvent>, statement: CardEvent -> seq<Charge>,
    importDate: Date, today: Date, checkingAccount: string, creditAccount: string)
    returns (r: Result<Outcome>)
    requires Ends(pages)
    ensures r == SyncRun(pages, cardFeed, statement, importDate, today, checkingAccount, creditAccount)
  {
    var keep := AfterStartingDate(importDate);
    var checking, _ := CollectChecking(pages, keep, Converter(checkingAccount));
    if checking.Err? {
      return Err(checking.error);
    }
    var credit := CollectCredit(cardFeed, keep, statement, creditAccount);
    if credit.Err? {
      return Err(credit.error);
    }
    var adjust := AdjustDateTxs(credit.value, today);
    var capped := CapAll(credit.value, today);
    return Ok(Outcome(checking.value + capped, adjust));
  }

  /**
   * The credit filter reads the unshifted date while the record carries the
   * date three hours earlier: a purchase made at 01:00 on the import date is
   * kept and recorded on the day before the import date.
   */
  lemma CreditRecordBeforeImportDate(e: CardEvent, importDate: Date, statement: CardEvent -> seq<Charge>, account: string)
    requires ValidDate(importDate) && importDate != MinDate
    requires e.time == CardTime(importDate, 1) && e.category == Purchase && e.details == Missing
    ensures var r := CreditFeed([e], AfterStartingDate(importDate), statement, account);
      r.Ok? && |r.value| == 1 && Before(r.value[0].date, importDate)
  {
    var events := EventsInRange([e], AfterStartingDate(importDate));
    assert e in events;
    assert events == [e];
    assert events[1..] == [];
    var tx := PurchaseTx(e, account);
    assert EventTxs(e, statement, account) == Ok([tx]);
    assert CreditTxsFrom(events, statement, account) == Prepend([tx], Ok([]));
    assert tx.date == PrevDay(importDate);
  }
}
