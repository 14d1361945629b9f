/**
 * The checking-account normaliser, `collect_checking_stmts` in sync.py: each
 * account-feed node is turned into a ledger record (or discarded) by
 * `checking_stmt_to_tx`, and the feed is read page after page, following the
 * cursor of each page's last edge, until a page reports no next page or a
 * record fails the date predicate.
 */
module Checking {
  import opened Text
  import opened Dates
  import opened Records

  /**
   * An account-feed node.  `amount` is `None` when the node has no `amount`
   * key and is otherwise in thousandths of the currency; `displayDate` and
   * `tags` are `None` when they are JSON null.
   */
  datatype AccountNode = AccountNode(
    id: string, amount: Option<int>, detail: string, title: string,
    postDate: CalendarDate, displayDate: Option<string>, tags: Option<seq<string>>)

  datatype Edge = Edge(node: AccountNode, cursor: string)

  /** One page of the paginated account feed. */
  datatype Page = Page(edges: seq<Edge>, hasNextPage: bool)

  /** Title phrases of untagged nodes that move money out of the account. */
  const OutgoingPhrases: seq<string> := ["compra de etf", "compra de cdb", "compra de ações", "reserva de ipo", "aplica"]

  /** Title phrases of untagged nodes that move money into the account. */
  const IncomingPhrases: seq<string> := ["transferência recebida"]

  /** The payee of a card-bill payment. */
  const InvoicePayee := "Fatura"

  // ---------------------------------------------------------------------------
  // One node

  /** The first line of a node's `detail`. */
  function FirstLine(detail: string): string {
    Split(detail, "\n")[0]
  }

  /** `FirstLine` is the text of `detail` up to its first line break, or all of it. */
  lemma FirstLineIsFirstLine(detail: string)
    ensures var p := FirstLine(detail);
      && p <= detail && !Contains(p, "\n")
      && (|p| < |detail| ==> detail[|p|] == '\n')
  {
    var p := FirstLine(detail);
    SplitHead(detail, "\n");
    if |p| < |detail| {
      assert detail[|p|..|p| + 1] == "\n";
    }
    forall i | 0 <= i <= |p| - 1
      ensures !MatchAt(p, "\n", i)
    {
      assert !MatchAt(detail, "\n", i);
      assert p[i..i + 1] == detail[i..i + 1];
    }
  }

  /** The first space-separated token of `displayDate` is not the day written in `postDate`. */
  predicate DisplayedDayDiffers(n: AccountNode) {
    n.displayDate.Some? && Split(n.displayDate.value, " ")[0] != Pad2(n.postDate.day)
  }

  /** The record date: `postDate`, or the day before when the displayed day disagrees with it. */
  function NodeDate(n: AccountNode): Date {
    if DisplayedDayDiffers(n) then PrevDay(n.postDate) else n.postDate
  }

  /** The record date is `postDate` exactly when the displayed day agrees, and otherwise the day before. */
  lemma NodeDateCorrection(n: AccountNode)
    ensures NodeDate(n) == n.postDate <==> !DisplayedDayDiffers(n)
    ensures n.postDate != MinDate && NodeDate(n) != n.postDate ==>
      ValidDate(NodeDate(n)) && NextDay(NodeDate(n)) == n.postDate
  {
  }

  function NodeTx(n: AccountNode, amount: int, payee: string, account: string): Tx {
    Tx(importId := n.id, amount := amount, payeeName := payee, memo := n.title,
       date := NodeDate(n), accountId := account)
  }

  /**
   * `checking_stmt_to_tx` (sync.py lines 90-129): the record of one node, or
   * `None` when the node has no amount or is an untagged transfer whose title
   * matches no known phrase.
   */
  function NodeToTx(n: AccountNode, account: string): Option<Tx> {
    if n.amount.None? then None
    else
      var amount := n.amount.value;
      match n.tags
      case None =>
        var title := Lower(n.title);
        if ContainsAny(title, OutgoingPhrases) then Some(NodeTx(n, -amount, n.title, account))
        else if ContainsAny(title, IncomingPhrases) then Some(NodeTx(n, amount, n.title, account))
        else None
      case Some(tags) =>
        if "payments" in tags then Some(NodeTx(n, -amount, InvoicePayee, account))
        else if "money-in" in tags then Some(NodeTx(n, amount, FirstLine(n.detail), account))
        else if "money-out" in tags then Some(NodeTx(n, -amount, FirstLine(n.detail), account))
        else Some(NodeTx(n, amount, FirstLine(n.detail), account))
  }

  /**
   * `checking_stmt_to_tx` as the source writes it: the amount, date and payee
   * are set from the node and then overwritten branch by branch.
   */
  method NodeRecord(n: AccountNode, account: string) returns (r: Option<Tx>)
    ensures r == NodeToTx(n, account)
  {
    if n.amount.None? {
      return None;
    }
    var amount := n.amount.value;
    var payee := FirstLine(n.detail);
    var date: Date := n.postDate;
    if n.displayDate.None? {
    } else if Split(n.displayDate.value, " ")[0] != Pad2(n.postDate.day) {
      date := PrevDay(date);
    }
    if n.tags.None? {
      payee := n.title;
      var title := Lower(n.title);
      if ContainsAny(title, OutgoingPhrases) {
        amount := amount * -1;
      } else if ContainsAny(title, IncomingPhrases) {
        amount := amount * 1;
      } else {
        return None;
      }
    } else if "payments" in n.tags.value {
      payee := InvoicePayee;
      amount := amount * -1;
    } else if "money-in" in n.tags.value {
      amount := amount * 1;
    } else if "money-out" in n.tags.value {
      amount := amount * -1;
    }
    return Some(Tx(importId := n.id, amount := amount, payeeName := payee, memo := n.title,
                   date := date, accountId := account));
  }

  /**
   * A node is discarded exactly when it has no amount, or has null tags and a
   * title that matches neither an outgoing nor an incoming phrase.
   */
  lemma NodeDiscarded(n: AccountNode, account: string)
    ensures NodeToTx(n, account).None? <==>
      n.amount.None? ||
      (n.tags.None? && !ContainsAny(Lower(n.title), OutgoingPhrases) && !ContainsAny(Lower(n.title), IncomingPhrases))
  {
  }

  /**
   * A node's record keeps the node id as import id and its title as memo; the
   * amount has the feed's magnitude (the rules flip or keep the sign, they
   * never force it); the date is `postDate` unless the displayed day
   * disagrees, and then it is exactly the calendar day before.
   */
  lemma NodeRecordFields(n: AccountNode, account: string)
    requires NodeToTx(n, account).Some?
    ensures var t := NodeToTx(n, account).value;
      && t.importId == n.id && t.memo == n.title && t.accountId == account
      && (t.amount == n.amount.value || t.amount == -n.amount.value)
      && (t.date == n.postDate <==> !DisplayedDayDiffers(n))
      && (n.postDate != MinDate && t.date != n.postDate ==>
            ValidDate(t.date) && NextDay(t.date) == n.postDate)
  {
    NodeDateCorrection(n);
  }

  /**
   * The payee of a record is the node title for untagged nodes, `Fatura` for
   * bill payments, and otherwise the first line of `detail`: a prefix of it
   * free of line breaks that ends at a line break or at the end.
   */
  lemma NodePayee(n: AccountNode, account: string)
    requires NodeToTx(n, account).Some?
    ensures var p := NodeToTx(n, account).value.payeeName;
      && (n.tags.None? ==> p == n.title)
      && (n.tags.Some? && "payments" in n.tags.value ==> p == InvoicePayee)
      && (n.tags.Some? && "payments" !in n.tags.value ==>
            p <= n.detail && !Contains(p, "\n") && (|p| < |n.detail| ==> n.detail[|p|] == '\n'))
  {
    FirstLineIsFirstLine(n.detail);
  }

  /**
   * The sign rules: for an untagged node an outgoing title phrase negates and
   * wins over an incoming one, which keeps the sign; a bill payment is negated
   * whatever other tags are present; otherwise `money-in` keeps the sign,
   * `money-out` without `money-in` negates, and any other tags keep it.
   */
  lemma NodeSign(n: AccountNode, account: string)
    requires n.amount.Some?
    ensures var r := NodeToTx(n, account);
      && (n.tags.None? && ContainsAny(Lower(n.title), OutgoingPhrases) ==> r.Some? && r.value.amount == -n.amount.value)
      && (n.tags.None? && !ContainsAny(Lower(n.title), OutgoingPhrases) && ContainsAny(Lower(n.title), IncomingPhrases) ==>
            r.Some? && r.value.amount == n.amount.value)
      && (n.tags.Some? && "payments" in n.tags.value ==> r.Some? && r.value.amount == -n.amount.value)
      && (n.tags.Some? && "money-in" in n.tags.value && "payments" !in n.tags.value ==>
            r.Some? && r.value.amount == n.amount.value)
      && (n.tags.Some? && "money-out" in n.tags.value && "payments" !in n.tags.value && "money-in" !in n.tags.value ==>
            r.Some? && r.value.amount == -n.amount.value)
      && (n.tags.Some? && "payments" !in n.tags.value && "money-in" !in n.tags.value && "money-out" !in n.tags.value ==>
            r.Some? && r.value.amount == n.amount.value)
  {
  }

  /** An untagged `Aplicação RDB` movement of 50 (50000 thousandths) is recorded as leaving the account. */
  lemma InvestmentIsOutgoing(id: string, day: CalendarDate, account: string)
    ensures var n := AccountNode(id, Some(50000), "", "Aplicação RDB", day, None, None);
      NodeToTx(n, account) == Some(Tx(id, -50000, "Aplicação RDB", "Aplicação RDB", day, account))
  {
    var title := Lower("Aplicação RDB");
    assert title[0..6] == "aplica";
    assert MatchAt(title, OutgoingPhrases[4], 0);
  }

  // ---------------------------------------------------------------------------
  // One page

  /** `checking_stmt_to_tx` bound to the checking account, as the collector applies it to each node. */
  function Converter(account: string): AccountNode -> Option<Tx> {
    n => NodeToTx(n, account)
  }

  /** The records a converted node contributes to its page: none or one. */
  function AsRecords(o: Option<Tx>): seq<Tx> {
    match o
    case None => []
    case Some(t) => [t]
  }

  /** The records of the nodes of `edges`, discarded nodes skipped, in feed order. */
  function PageRecords(edges: seq<Edge>, convert: AccountNode -> Option<Tx>): (txs: seq<Tx>)
    ensures |txs| <= |edges|
    decreases |edges|
  {
    if edges == [] then []
    else
      AsRecords(convert(edges[0].node)) + PageRecords(edges[1..], convert)
  }

  /**
   * The longest prefix of `txs` whose dates all satisfy `keep`: the records a
   * generator yields before it returns at the first record that fails.
   */
  function TakeWhile(txs: seq<Tx>, keep: Date -> bool): (r: seq<Tx>)
    ensures r <= txs
    ensures forall i :: 0 <= i < |r| ==> keep(r[i].date)
    ensures |r| < |txs| ==> !keep(txs[|r|].date)
    decreases |txs|
  {
    if txs == [] || !keep(txs[0].date) then []
    else [txs[0]] + TakeWhile(txs[1..], keep)
  }

  /** A first record within `keep` is taken, and the take-while goes on into the rest. */
  lemma TakeWhileCons(txs: seq<Tx>, keep: Date -> bool)
    requires txs != [] && keep(txs[0].date)
    ensures TakeWhile(txs, keep) == [txs[0]] + TakeWhile(txs[1..], keep)
  {
  }

  lemma {:induction false} TakeWhileConcat(a: seq<Tx>, b: seq<Tx>, keep: Date -> bool)
    ensures TakeWhile(a + b, keep) == if |TakeWhile(a, keep)| < |a| then TakeWhile(a, keep) else a + TakeWhile(b, keep)
    decreases |a|
  {
    if a == [] {
      assert a + b == b;
    } else {
      TailOfConcat(a, b);
      if keep(a[0].date) {
        var rest := TakeWhile(a[1..], keep);
        TakeWhileConcat(a[1..], b, keep);
        TakeWhileCons(a, keep);
        TakeWhileCons(a + b, keep);
        if |rest| < |a[1..]| {
          assert TakeWhile(a + b, keep) == [a[0]] + rest;
        } else {
          assert TakeWhile(a + b, keep) == [a[0]] + (a[1..] + TakeWhile(b, keep));
          ConcatAssoc([a[0]], a[1..], TakeWhile(b, keep));
          HeadTail(a);
        }
      }
    }
  }

  /** Every record of `txs` is dated within `keep`. */
  predicate AllKept(txs: seq<Tx>, keep: Date -> bool) {
    forall j :: 0 <= j < |txs| ==> keep(txs[j].date)
  }

  lemma TakeWhileKeepsAll(txs: seq<Tx>, keep: Date -> bool)
    requires |TakeWhile(txs, keep)| == |txs|
    ensures TakeWhile(txs, keep) == txs && AllKept(txs, keep)
  {
  }

  lemma {:induction false} TakeWhileAll(txs: seq<Tx>, keep: Date -> bool)
    requires AllKept(txs, keep)
    ensures TakeWhile(txs, keep) == txs
    decreases |txs|
  {
    if txs != [] {
      TakeWhileAll(txs[1..], keep);
    }
  }

  /** The records of a run of edges followed by another run. */
  lemma {:induction false} PageRecordsConcat(a: seq<Edge>, b: seq<Edge>, convert: AccountNode -> Option<Tx>)
    ensures PageRecords(a + b, convert) == PageRecords(a, convert) + PageRecords(b, convert)
    decreases |a|
  {
    if a == [] {
      assert a + b == b;
    } else {
      TailOfConcat(a, b);
      PageRecordsConcat(a[1..], b, convert);
      ConcatAssoc(AsRecords(convert(a[0].node)), PageRecords(a[1..], convert), PageRecords(b, convert));
    }
  }

  lemma PageRecordsSnoc(edges: seq<Edge>, i: nat, convert: AccountNode -> Option<Tx>)
    requires i < |edges|
    ensures PageRecords(edges[..i + 1], convert) == PageRecords(edges[..i], convert) + AsRecords(convert(edges[i].node))
  {
    assert edges[..i + 1] == edges[..i] + [edges[i]];
    PageRecordsConcat(edges[..i], [edges[i]], convert);
    assert [edges[i]][1..] == [];
  }

  /** A page scan that meets a record outside `keep` at edge `i` has emitted exactly the kept prefix. */
  lemma ScanStopsAt(edges: seq<Edge>, i: nat, keep: Date -> bool, convert: AccountNode -> Option<Tx>)
    requires i < |edges| && convert(edges[i].node).Some? && !keep(convert(edges[i].node).value.date)
    requires AllKept(PageRecords(edges[..i], convert), keep)
    ensures var kept := PageRecords(edges[..i], convert);
      TakeWhile(PageRecords(edges, convert), keep) == kept && |kept| < |PageRecords(edges, convert)|
  {
    var kept := PageRecords(edges[..i], convert);
    var t := convert(edges[i].node).value;
    var rest := PageRecords(edges[i + 1..], convert);
    assert edges == edges[..i] + edges[i..];
    PageRecordsConcat(edges[..i], edges[i..], convert);
    assert edges[i..][0] == edges[i] && edges[i..][1..] == edges[i + 1..];
    assert PageRecords(edges, convert) == kept + ([t] + rest);
    TakeWhileConcat(kept, [t] + rest, keep);
    TakeWhileAll(kept, keep);
    assert ([t] + rest)[0] == t;
  }

  /**
   * The inner loop of `collect_checking_stmts` (sync.py lines 137-142): the
   * records of one page up to the first one whose date fails `keep`, and
   * whether such a record was met (the generator then returns).
   */
  method ScanPage(edges: seq<Edge>, keep: Date -> bool, convert: AccountNode -> Option<Tx>) returns (emitted: seq<Tx>, stopped: bool)
    ensures emitted == TakeWhile(PageRecords(edges, convert), keep)
    ensures stopped <==> |emitted| < |PageRecords(edges, convert)|
  {
    emitted := [];
    for i := 0 to |edges|
      invariant emitted == PageRecords(edges[..i], convert)
      invariant AllKept(emitted, keep)
    {
      PageRecordsSnoc(edges, i, convert);
      var tx := convert(edges[i].node);
      if tx.None? {
        continue;
      }
      if !keep(tx.value.date) {
        ScanStopsAt(edges, i, keep, convert);
        return emitted, true;
      }
      emitted := emitted + [tx.value];
    }
    assert edges[..|edges|] == edges;
    TakeWhileAll(emitted, keep);
    return emitted, false;
  }

  // ---------------------------------------------------------------------------
  // The whole feed

  /**
   * What the checking collector yields from page `k` on (sync.py lines
   * 131-145): a page's records up to the first that fails `keep`, which ends
   * the stream; a page without edges has no cursor and aborts the run; a page
   * reporting no next page ends the stream.
   */
  function CheckingFrom(pages: seq<Page>, k: nat, keep: Date -> bool, convert: AccountNode -> Option<Tx>): Result<seq<Tx>>
    decreases |pages| - k
  {
    if k >= |pages| then Ok([])
    else
      var records := PageRecords(pages[k].edges, convert);
      var emitted := TakeWhile(records, keep);
      if |emitted| < |records| then Ok(emitted)
      else if pages[k].edges == [] then Err(EmptyPage(k))
      else if !pages[k].hasNextPage then Ok(emitted)
      else Prepend(emitted, CheckingFrom(pages, k + 1, keep, convert))
  }

  /** What `list(collect_checking_stmts(...))` gives. */
  function CheckingFeed(pages: seq<Page>, keep: Date -> bool, account: string): Result<seq<Tx>> {
    CheckingFrom(pages, 0, keep, Converter(account))
  }

  /** Every record the feed serves from page `k` on: all pages up to the first that reports no next page. */
  function ServedFrom(pages: seq<Page>, k: nat, convert: AccountNode -> Option<Tx>): seq<Tx>
    decreases |pages| - k
  {
    if k >= |pages| then []
    else PageRecords(pages[k].edges, convert) + (if pages[k].hasNextPage then ServedFrom(pages, k + 1, convert) else [])
  }

  /** Page `j` is reached through next-page links from page `k`: every page before it reports a next page. */
  predicate Reached(pages: seq<Page>, k: nat, j: nat) {
    k <= j < |pages| && forall i :: k <= i < j ==> pages[i].hasNextPage
  }

  /** The feed eventually reports that there is no next page. */
  predicate Ends(pages: seq<Page>) {
    exists j :: 0 <= j < |pages| && !pages[j].hasNextPage
  }

  /** The first page from `k` on that reports no next page. */
  function LastPage(pages: seq<Page>, k: nat): (j: nat)
    requires exists j :: k <= j < |pages| && !pages[j].hasNextPage
    ensures Reached(pages, k, j) && !pages[j].hasNextPage
    decreases |pages| - k
  {
    if !pages[k].hasNextPage then k else LastPage(pages, k + 1)
  }

  /** A page whose records are all kept passes them on and the take-while goes on into what follows. */
  lemma TakeWhileFullPage(records: seq<Tx>, rest: seq<Tx>, keep: Date -> bool)
    requires |TakeWhile(records, keep)| == |records|
    ensures TakeWhile(records, keep) == records
    ensures TakeWhile(records + rest, keep) == records + TakeWhile(rest, keep)
  {
    TakeWhileConcat(records, rest, keep);
    TakeWhileKeepsAll(records, keep);
  }

  /** A page with a record outside `keep` ends the take-while inside it. */
  lemma TakeWhileCutPage(records: seq<Tx>, rest: seq<Tx>, keep: Date -> bool)
    requires |TakeWhile(records, keep)| < |records|
    ensures TakeWhile(records + rest, keep) == TakeWhile(records, keep)
  {
    TakeWhileConcat(records, rest, keep);
  }

  /**
   * Early termination: when the run succeeds, its records are exactly the
   * served records up to (not including) the first one dated outside `keep`.
   */
  lemma {:induction false} CheckingFromIsTakeWhile(pages: seq<Page>, k: nat, keep: Date -> bool, convert: AccountNode -> Option<Tx>)
    ensures var r := CheckingFrom(pages, k, keep, convert);
      r.Ok? ==> r.value == TakeWhile(ServedFrom(pages, k, convert), keep)
    decreases |pages| - k
  {
    if k < |pages| {
      var records := PageRecords(pages[k].edges, convert);
      var rest := if pages[k].hasNextPage then ServedFrom(pages, k + 1, convert) else [];
      var emitted := TakeWhile(records, keep);
      assert ServedFrom(pages, k, convert) == records + rest;
      if |emitted| < |records| {
        TakeWhileCutPage(records, rest, keep);
        assert CheckingFrom(pages, k, keep, convert) == Ok(emitted);
      } else if pages[k].edges != [] {
        TakeWhileFullPage(records, rest, keep);
        if pages[k].hasNextPage {
          CheckingFromIsTakeWhile(pages, k + 1, keep, convert);
          assert CheckingFrom(pages, k, keep, convert) == Prepend(emitted, CheckingFrom(pages, k + 1, keep, convert));
        } else {
          assert CheckingFrom(pages, k, keep, convert) == Ok(emitted);
          assert records + TakeWhile(rest, keep) == records;
        }
      }
    }
  }

  /**
   * A run fails only on a page without edges, and that page is the last
   * one it fetches.
   */
  lemma {:induction false} CheckingFromFails(pages: seq<Page>, k: nat, keep: Date -> bool, convert: AccountNode -> Option<Tx>)
    ensures var r := CheckingFrom(pages, k, keep, convert);
      r.Err? ==> r.error.EmptyPage? && Reached(pages, k, r.error.page) && pages[r.error.page].edges == []
                 && r.error.page == k + Fetches(pages, k, keep, convert) - 1
    decreases |pages| - k
  {
    if k < |pages| && pages[k].edges != [] && pages[k].hasNextPage {
      CheckingFromFails(pages, k + 1, keep, convert);
    }
  }

  /** A run whose fetched pages all have edges succeeds. */
  lemma {:induction false} CheckingFromSucceeds(pages: seq<Page>, k: nat, keep: Date -> bool, convert: AccountNode -> Option<Tx>)
    requires forall j: nat :: k <= j < k + Fetches(pages, k, keep, convert) && j < |pages| ==> pages[j].edges != []
    ensures CheckingFrom(pages, k, keep, convert).Ok?
    decreases |pages| - k
  {
    if k < |pages| {
      if !StopsAt(pages, k, keep, convert) {
        CheckingFromSucceeds(pages, k + 1, keep, convert);
      }
    }
  }

  /** Every record of page `page` satisfies `keep`. */
  predicate PageKept(page: Page, keep: Date -> bool, convert: AccountNode -> Option<Tx>) {
    AllKept(PageRecords(page.edges, convert), keep)
  }

  /**
   * The cursor the `k`-th fetch passes: none for the first, then the cursor of
   * the previous page's last edge.
   */
  function CursorBefore(pages: seq<Page>, k: nat): Option<string> {
    if k == 0 || k > |pages| || pages[k - 1].edges == [] then None
    else Some(pages[k - 1].edges[|pages[k - 1].edges| - 1].cursor)
  }

  /** The cursors of the first `n` fetches. */
  function Requests(pages: seq<Page>, n: nat): (rs: seq<Option<string>>)
    ensures |rs| == n
  {
    if n == 0 then [] else Requests(pages, n - 1) + [CursorBefore(pages, n - 1)]
  }

  /**
   * The first fetch passes no cursor, and each later fetch passes the cursor
   * of the last edge of the page before it.
   */
  lemma {:induction false} RequestsCursors(pages: seq<Page>, n: nat)
    ensures forall i :: 0 <= i < n ==> Requests(pages, n)[i] == CursorBefore(pages, i)
    ensures n > 0 ==> Requests(pages, n)[0] == None
    ensures forall i :: 0 < i < n && i <= |pages| && pages[i - 1].edges != [] ==>
              Requests(pages, n)[i] == Some(pages[i - 1].edges[|pages[i - 1].edges| - 1].cursor)
    decreases n
  {
    if n > 0 {
      RequestsCursors(pages, n - 1);
      assert Requests(pages, n) == Requests(pages, n - 1) + [CursorBefore(pages, n - 1)];
    }
  }

  /** One more fetch adds the cursor passed to it. */
  lemma RequestsSnoc(pages: seq<Page>, k: nat)
    ensures Requests(pages, k + 1) == Requests(pages, k) + [CursorBefore(pages, k)]
  {
  }

  /** The loop stops at page `i`: a record there is outside `keep`, or it has no edges, or it reports no next page. */
  predicate StopsAt(pages: seq<Page>, i: nat, keep: Date -> bool, convert: AccountNode -> Option<Tx>)
    requires i < |pages|
  {
    var records := PageRecords(pages[i].edges, convert);
    |TakeWhile(records, keep)| < |records| || pages[i].edges == [] || !pages[i].hasNextPage
  }

  /** How many pages a run starting at page `k` fetches. */
  function Fetches(pages: seq<Page>, k: nat, keep: Date -> bool, convert: AccountNode -> Option<Tx>): (n: nat)
    ensures k < |pages| ==> 1 <= n <= |pages| - k
    decreases |pages| - k
  {
    if k >= |pages| then 0
    else if StopsAt(pages, k, keep, convert) then 1
    else 1 + Fetches(pages, k + 1, keep, convert)
  }

  /**
   * A run from page `k` of a feed that ends fetches at least one page and no
   * page beyond the first that reports no next page; every page it fetches
   * before the last one has edges, reports a next page, and has all its
   * records kept (`FetchesStop` says why the last one ends the loop).
   */
  lemma {:induction false} FetchesBound(pages: seq<Page>, k: nat, keep: Date -> bool, convert: AccountNode -> Option<Tx>)
    requires exists j :: k <= j < |pages| && !pages[j].hasNextPage
    ensures var n := Fetches(pages, k, keep, convert);
      && 1 <= n <= LastPage(pages, k) + 1 - k
      && forall i :: k <= i < k + n - 1 ==>
           pages[i].hasNextPage && pages[i].edges != [] && PageKept(pages[i], keep, convert)
    decreases |pages| - k
  {
    if !StopsAt(pages, k, keep, convert) {
      TakeWhileKeepsAll(PageRecords(pages[k].edges, convert), keep);
      FetchesBound(pages, k + 1, keep, convert);
    }
  }

  /** The last page a run fetches is one where the loop stops. */
  lemma {:induction false} FetchesStop(pages: seq<Page>, k: nat, keep: Date -> bool, convert: AccountNode -> Option<Tx>)
    requires exists j :: k <= j < |pages| && !pages[j].hasNextPage
    ensures StopsAt(pages, k + Fetches(pages, k, keep, convert) - 1, keep, convert)
  {
    var j :| k <= j < |pages| && !pages[j].hasNextPage;
    var last := FetchesStopBefore(pages, k, j, keep, convert);
  }

  /** Reading from `k`, the last fetch is at or before any page `j` that reports no next page, and the loop stops there. */
  lemma {:induction false} FetchesStopBefore(pages: seq<Page>, k: nat, j: nat, keep: Date -> bool, convert: AccountNode -> Option<Tx>)
    returns (last: nat)
    requires k <= j < |pages| && !pages[j].hasNextPage
    ensures last == k + Fetches(pages, k, keep, convert) - 1
    ensures k <= last <= j && StopsAt(pages, last, keep, convert)
    decreases j - k
  {
    if StopsAt(pages, k, keep, convert) {
      last := k;
    } else {
      last := FetchesStopBefore(pages, k + 1, j, keep, convert);
    }
  }

  /**
   * Conversely to `CheckingFromFails`, a run whose last fetched page has no
   * edges fails there, whether or not that page reports a next page: the
   * cursor of its last edge is read in any case.
   */
  lemma {:induction false} EmptyLastPageFails(pages: seq<Page>, k: nat, keep: Date -> bool, convert: AccountNode -> Option<Tx>)
    requires k < |pages|
    requires pages[k + Fetches(pages, k, keep, convert) - 1].edges == []
    ensures CheckingFrom(pages, k, keep, convert) == Err(EmptyPage(k + Fetches(pages, k, keep, convert) - 1))
    decreases |pages| - k
  {
    if !StopsAt(pages, k, keep, convert) {
      EmptyLastPageFails(pages, k + 1, keep, convert);
    }
  }

  /**
   * The loop of `collect_checking_stmts` before fetch `k`: `out` holds what
   * was yielded so far, `cursor` is the cursor to pass, and the run from
   * page `k` supplies the rest.
   */
  ghost predicate Reading(pages: seq<Page>, keep: Date -> bool, convert: AccountNode -> Option<Tx>,
                          k: nat, out: seq<Tx>, cursor: Option<string>, requested: seq<Option<string>>)
    requires Ends(pages)
  {
    && k <= LastPage(pages, 0)
    && requested == Requests(pages, k)
    && cursor == CursorBefore(pages, k)
    && CheckingFrom(pages, 0, keep, convert) == Prepend(out, CheckingFrom(pages, k, keep, convert))
    && Fetches(pages, 0, keep, convert) == k + Fetches(pages, k, keep, convert)
  }

  /** The loop of `collect_checking_stmts` after its last fetch, the `k`-th: `r` is the whole run. */
  ghost predicate Finished(pages: seq<Page>, keep: Date -> bool, convert: AccountNode -> Option<Tx>,
                           k: nat, r: Result<seq<Tx>>, requested: seq<Option<string>>)
    requires Ends(pages)
  {
    && k <= LastPage(pages, 0) + 1
    && requested == Requests(pages, k)
    && CheckingFrom(pages, 0, keep, convert) == r
    && Fetches(pages, 0, keep, convert) == k
  }

  /** Page `k` has a record outside `keep`: the run ends with what was yielded so far. */
  lemma FetchStops(pages: seq<Page>, keep: Date -> bool, convert: AccountNode -> Option<Tx>,
                   k: nat, out: seq<Tx>, cursor: Option<string>, requested: seq<Option<string>>)
    requires Ends(pages) && Reading(pages, keep, convert, k, out, cursor, requested)
    requires |TakeWhile(PageRecords(pages[k].edges, convert), keep)| < |PageRecords(pages[k].edges, convert)|
    ensures Finished(pages, keep, convert, k + 1, Ok(out + TakeWhile(PageRecords(pages[k].edges, convert), keep)), requested + [cursor])
  {
    RequestsSnoc(pages, k);
  }

  /** Page `k` has no edges (and so no records): taking its last cursor fails the run. */
  lemma FetchEmpty(pages: seq<Page>, keep: Date -> bool, convert: AccountNode -> Option<Tx>,
                   k: nat, out: seq<Tx>, cursor: Option<string>, requested: seq<Option<string>>)
    requires Ends(pages) && Reading(pages, keep, convert, k, out, cursor, requested)
    requires pages[k].edges == []
    ensures Finished(pages, keep, convert, k + 1, Err(EmptyPage(k)), requested + [cursor])
  {
    RequestsSnoc(pages, k);
  }

  /** Page `k` has edges, all its records are kept and it reports no next page: the run ends after it. */
  lemma FetchLast(pages: seq<Page>, keep: Date -> bool, convert: AccountNode -> Option<Tx>,
                   k: nat, out: seq<Tx>, cursor: Option<string>, requested: seq<Option<string>>)
    requires Ends(pages) && Reading(pages, keep, convert, k, out, cursor, requested)
    requires |TakeWhile(PageRecords(pages[k].edges, convert), keep)| == |PageRecords(pages[k].edges, convert)|
    requires pages[k].edges != [] && !pages[k].hasNextPage
    ensures Finished(pages, keep, convert, k + 1, Ok(out + TakeWhile(PageRecords(pages[k].edges, convert), keep)), requested + [cursor])
  {
    RequestsSnoc(pages, k);
  }

  /**
   * Page `k` has edges, all its records are kept and it reports a next page:
   * the loop goes on to fetch `k + 1` with the cursor of the last edge.
   */
  lemma FetchNext(pages: seq<Page>, keep: Date -> bool, convert: AccountNode -> Option<Tx>,
                   k: nat, out: seq<Tx>, cursor: Option<string>, requested: seq<Option<string>>)
    requires Ends(pages) && Reading(pages, keep, convert, k, out, cursor, requested)
    requires |TakeWhile(PageRecords(pages[k].edges, convert), keep)| == |PageRecords(pages[k].edges, convert)|
    requires pages[k].edges != [] && pages[k].hasNextPage
    ensures Reading(pages, keep, convert, k + 1, out + TakeWhile(PageRecords(pages[k].edges, convert), keep),
                    Some(pages[k].edges[|pages[k].edges| - 1].cursor), requested + [cursor])
  {
    RequestsSnoc(pages, k);
    var records := PageRecords(pages[k].edges, convert);
    TakeWhileKeepsAll(records, keep);
    PrependTwice(out, TakeWhile(records, keep), CheckingFrom(pages, k + 1, keep, convert));
  }

  /**
   * One pass of the paginated loop (sync.py lines 134-145): fetch page `k`
   * with `cursor`, yield its records up to the first one outside `keep`,
   * then read `hasNextPage` and the last edge's cursor (which fails on a
   * page without edges).  Either the loop goes on with fetch `k + 1` or the
   * whole run is over.
   */
  method ReadPage(pages: seq<Page>, keep: Date -> bool, convert: AccountNode -> Option<Tx>,
                  k: nat, out: seq<Tx>, cursor: Option<string>, requested: seq<Option<string>>)
    returns (hasNextPage: bool, out': seq<Tx>, cursor': Option<string>, requested': seq<Option<string>>, r: Result<seq<Tx>>)
    requires Ends(pages) && Reading(pages, keep, convert, k, out, cursor, requested)
    ensures hasNextPage ==> Reading(pages, keep, convert, k + 1, out', cursor', requested')
    ensures !hasNextPage ==> Finished(pages, keep, convert, k + 1, r, requested')
  {
    requested' := requested + [cursor];
    var page := pages[k];
    var emitted, stopped := ScanPage(page.edges, keep, convert);
    out', cursor' := out + emitted, cursor;
    r := Ok(out');
    if stopped {
      FetchStops(pages, keep, convert, k, out, cursor, requested);
      hasNextPage := false;
    } else if page.edges == [] {
      FetchEmpty(pages, keep, convert, k, out, cursor, requested);
      r, hasNextPage := Err(EmptyPage(k)), false;
    } else {
      hasNextPage := page.hasNextPage;
      cursor' := Some(page.edges[|page.edges| - 1].cursor);
      if hasNextPage {
        FetchNext(pages, keep, convert, k, out, cursor, requested);
      } else {
        FetchLast(pages, keep, convert, k, out, cursor, requested);
      }
    }
  }

  /**
   * `collect_checking_stmts`' paginated loop (sync.py lines 131-145), with
   * `convert` standing for `checking_stmt_to_tx` (`Converter(account)`).  The
   * `k`-th fetch answers with `pages[k]`; `requested` lists the cursors passed
   * to the fetches, as many as `Fetches` counts (see `FetchesBound`).
   */
  method CollectChecking(pages: seq<Page>, keep: Date -> bool, convert: AccountNode -> Option<Tx>)
    returns (r: Result<seq<Tx>>, requested: seq<Option<string>>)
    requires Ends(pages)
    ensures r == CheckingFrom(pages, 0, keep, convert)
    ensures requested == Requests(pages, Fetches(pages, 0, keep, convert))
  {
    ghost var last := LastPage(pages, 0);
    var out: seq<Tx> := [];
    var hasNextPage := true;
    var k := 0;
    var cursor: Option<string> := None;
    requested := [];
    r := Ok([]);
    PrependNothing(CheckingFrom(pages, 0, keep, convert));
    while hasNextPage
      invariant hasNextPage ==> Reading(pages, keep, convert, k, out, cursor, requested)
      invariant !hasNextPage ==> Finished(pages, keep, convert, k, r, requested)
      decreases last + 1 - k
    {
      hasNextPage, out, cursor, requested, r := ReadPage(pages, keep, convert, k, out, cursor, requested);
      k := k + 1;
    }
  }
}
