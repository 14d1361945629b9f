/**
 * The ledger transaction record both feeds are normalised into, and the
 * faults that abort a sync run.
 */
module Records {
  import opened Dates

  /**
   * A ledger transaction request: `importId` is the ledger's idempotency key,
   * `amount` is in thousandths of the currency (negative leaves the account).
   */
  datatype Tx = Tx(importId: string, amount: int, payeeName: string, memo: string, date: Date, accountId: string)

  /** Why an anticipation event's description could not be read. */
  datatype AnticipationFault =
    | MarkerCount  // the description does not split into exactly two parts on the currency marker
    | BadAmount    // the text after the marker is not an integer once commas are removed
    | EmptyPayee   // nothing is left of the payee text once stripped

  /** A fault that aborts the whole run (the Python code raises; nothing is submitted). */
  datatype SyncError =
    | AnticipationError(eventId: string, fault: AnticipationFault)
    | DetailsNull(eventId: string)  // a transaction event whose `details` is JSON null
    | EmptyPage(page: nat)          // a checking page without edges has no cursor to read

  datatype Result<T> = Ok(value: T) | Err(error: SyncError)

  /** The records `prefix` followed by those of `r`, or `r`'s fault. */
  function Prepend(prefix: seq<Tx>, r: Result<seq<Tx>>): (p: Result<seq<Tx>>)
    ensures p.Ok? <==> r.Ok?
    ensures p.Ok? ==> p.value == prefix + r.value
    ensures p.Err? ==> p == r
  {
    match r
    case Ok(rest) => Ok(prefix + rest)
    case Err(e) => Err(e)
  }

  lemma PrependNothing(r: Result<seq<Tx>>)
    ensures Prepend([], r) == r
  {
    if r.Ok? {
      assert [] + r.value == r.value;
    }
  }

  lemma PrependTwice(a: seq<Tx>, b: seq<Tx>, r: Result<seq<Tx>>)
    ensures Prepend(a, Prepend(b, r)) == Prepend(a + b, r)
  {
    if r.Ok? {
      assert a + (b + r.value) == (a + b) + r.value;
    }
  }
}
