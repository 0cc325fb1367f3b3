/**
 * The two document state machines: purchase-order statuses and goods-receipt
 * statuses, each with its table of allowed transitions, and the one evaluator
 * both `clean` methods apply to their table.
 */
module Statuses {
  import opened Wrappers

  datatype PoStatus = Draft | Submitted | Received | Cancelled

  /** `Cancelled` is a valid choice for the field, but no table entry leads to it or from it. */
  datatype GrvStatus = Draft | Closed | Cancelled

  /** Why a status change was refused: not in the table entry, or no entry at all (a KeyError). */
  datatype TransitionError<S> =
    | InvalidTransition(from: S, to: S, allowed: set<S>)
    | NoTableEntry(from: S)

  /** The purchase-order transition table. */
  const PoTransitions: map<PoStatus, set<PoStatus>> := map[
    PoStatus.Draft := {PoStatus.Submitted, PoStatus.Cancelled},
    PoStatus.Submitted := {PoStatus.Received, PoStatus.Cancelled},
    PoStatus.Received := {},
    PoStatus.Cancelled := {}
  ]

  /** The purchase-order table has an entry for every status. */
  lemma PoTableTotal(s: PoStatus)
    ensures s in PoTransitions
  {
    match s
    case Draft =>
    case Submitted =>
    case Received =>
    case Cancelled =>
  }

  function PoAllowed(s: PoStatus): set<PoStatus> {
    PoTableTotal(s);
    PoTransitions[s]
  }

  /** The goods-receipt transition table; it has no key for `Cancelled`. */
  const GrvTransitions: map<GrvStatus, set<GrvStatus>> := map[
    GrvStatus.Draft := {GrvStatus.Closed},
    GrvStatus.Closed := {}
  ]

  /**
   * The check both `clean` methods run on an update: an unchanged status always
   * passes; a changed one must be listed under the old status. The table is
   * consulted only when the status changes, so a missing key matters only then.
   */
  function CheckTransition<S(==)>(table: map<S, set<S>>, from: S, to: S): (r: Result<(), TransitionError<S>>)
    ensures r.Success? <==> from == to || (from in table && to in table[from])
    ensures r.Failure? && from in table ==> r.error == InvalidTransition(from, to, table[from])
    ensures r.Failure? && from !in table ==> r.error == NoTableEntry(from)
  {
    if from == to then Success(())
    else if from !in table then Failure(NoTableEntry(from))
    else if to in table[from] then Success(())
    else Failure(InvalidTransition(from, to, table[from]))
  }

  predicate PoAccepts(from: PoStatus, to: PoStatus) {
    CheckTransition(PoTransitions, from, to).Success?
  }

  predicate GrvAccepts(from: GrvStatus, to: GrvStatus) {
    CheckTransition(GrvTransitions, from, to).Success?
  }

  /** The purchase-order machine, edge by edge: exactly four status changes exist. */
  lemma PoAcceptsExactly(from: PoStatus, to: PoStatus)
    ensures PoAccepts(from, to) <==>
      from == to
      || (from == PoStatus.Draft && to == PoStatus.Submitted)
      || (from == PoStatus.Draft && to == PoStatus.Cancelled)
      || (from == PoStatus.Submitted && to == PoStatus.Received)
      || (from == PoStatus.Submitted && to == PoStatus.Cancelled)
  {
  }

  /** `Received` and `Cancelled` are terminal: their table entries are empty. */
  lemma PoTerminal(from: PoStatus, to: PoStatus)
    requires from == PoStatus.Received || from == PoStatus.Cancelled
    ensures PoAccepts(from, to) <==> to == from
    ensures to != from ==> CheckTransition(PoTransitions, from, to) == Failure(InvalidTransition(from, to, {}))
  {
  }

  /** How far along its life a purchase order is. */
  function PoRank(s: PoStatus): nat {
    match s
    case Draft => 0
    case Submitted => 1
    case Received => 2
    case Cancelled => 2
  }

  /** Every accepted change moves a purchase order strictly forward, so no status is ever re-entered. */
  lemma PoAcceptsMovesForward(from: PoStatus, to: PoStatus)
    requires PoAccepts(from, to) && from != to
    ensures PoRank(from) < PoRank(to)
  {
  }

  /** The only goods-receipt status change is draft to closed; nothing leads into `Cancelled`. */
  lemma GrvOnlyDraftToClosed(from: GrvStatus, to: GrvStatus)
    ensures GrvAccepts(from, to) && from != to <==> from == GrvStatus.Draft && to == GrvStatus.Closed
  {
  }

  /** A receipt stored as cancelled cannot change status: the lookup finds no key. */
  lemma GrvCancelledHasNoEntry(to: GrvStatus)
    requires to != GrvStatus.Cancelled
    ensures CheckTransition(GrvTransitions, GrvStatus.Cancelled, to) == Failure(NoTableEntry(GrvStatus.Cancelled))
  {
  }

  /** A run of saves each of which passed the purchase-order check. */
  predicate PoHistory(h: seq<PoStatus>) {
    forall i :: 0 < i < |h| ==> PoAccepts(h[i - 1], h[i])
  }

  /** Along an accepted history, a terminal status is never left again. */
  lemma {:induction false} PoTerminalStays(h: seq<PoStatus>, i: nat, j: nat)
    requires PoHistory(h) && i <= j < |h|
    requires h[i] == PoStatus.Received || h[i] == PoStatus.Cancelled
    ensures h[j] == h[i]
  {
    if i < j {
      PoTerminalStays(h, i, j - 1);
      assert PoAccepts(h[j - 1], h[j]);
    }
  }

  /** A run of saves each of which passed the goods-receipt check. */
  predicate GrvHistory(h: seq<GrvStatus>) {
    forall i :: 0 < i < |h| ==> GrvAccepts(h[i - 1], h[i])
  }

  /** How many saves of the run move the receipt into `Closed` (each one fires the closure cascade). */
  function ClosingSaves(h: seq<GrvStatus>): nat {
    if |h| < 2 then 0
    else ClosingSaves(h[..|h| - 1]) + (if h[|h| - 2] != GrvStatus.Closed && h[|h| - 1] == GrvStatus.Closed then 1 else 0)
  }

  /** Once closed, an accepted history stays closed. */
  lemma {:induction false} GrvClosedStays(h: seq<GrvStatus>, i: nat, j: nat)
    requires GrvHistory(h) && i <= j < |h| && h[i] == GrvStatus.Closed
    ensures h[j] == GrvStatus.Closed
  {
    if i < j {
      GrvClosedStays(h, i, j - 1);
      assert GrvAccepts(h[j - 1], h[j]);
    }
  }

  /**
   * Along an accepted history the receipt enters `Closed` at most once, and
   * if it is closed at the end and was not at the start, exactly once.
   */
  lemma {:induction false} GrvClosesAtMostOnce(h: seq<GrvStatus>)
    requires GrvHistory(h)
    ensures ClosingSaves(h) <= 1
    ensures ClosingSaves(h) == 1 <==> |h| > 0 && h[0] != GrvStatus.Closed && h[|h| - 1] == GrvStatus.Closed
  {
    if |h| >= 2 {
      var p := h[..|h| - 1];
      assert GrvHistory(p);
      GrvClosesAtMostOnce(p);
      assert p[0] == h[0] && p[|p| - 1] == h[|h| - 2];
      assert GrvAccepts(h[|h| - 2], h[|h| - 1]);
      if h[0] == GrvStatus.Closed {
        GrvClosedStays(h, 0, |h| - 2);
        GrvClosedStays(h, 0, |h| - 1);
      }
      if ClosingSaves(p) == 1 {
        GrvClosedStays(h, |h| - 2, |h| - 1);
      }
    }
  }
}
