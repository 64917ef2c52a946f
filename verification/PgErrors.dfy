/** Failures of database calls, and which of them are worth another try. */
module PgErrors {
  import opened Wrappers

  /** The errors the classification knows by identity; Other is any of the rest. */
  datatype Cause =
    | Canceled | DeadlineExceeded | NoRows
    | BadConn | Eof | UnexpectedEof | ConnRefused | ConnReset | ConnAborted
    | Other(text: string)

  /** An error as errors.Is and errors.As see it: a chain of wrappers down to a cause. */
  datatype Error =
    | Plain(cause: Cause)
    | Pg(code: string)
    | Net(inner: Error)
    | Wrap(text: string, inner: Error)
    | CommitError(inner: Error)
  {
    predicate Is(c: Cause) {
      match this
      case Plain(cause) => cause == c
      case Pg(_) => false
      case Net(e) => e.Is(c)
      case Wrap(_, e) => e.Is(c)
      case CommitError(e) => e.Is(c)
    }

    /** errors.As with a commitError target. */
    predicate HasCommitError() {
      match this
      case Plain(_) => false
      case Pg(_) => false
      case Net(e) => e.HasCommitError()
      case Wrap(_, e) => e.HasCommitError()
      case CommitError(_) => true
    }

    /** errors.As with a pgconn.PgError target: its SQLSTATE. */
    function SqlState(): Option<string> {
      match this
      case Plain(_) => None
      case Pg(code) => Some(code)
      case Net(e) => e.SqlState()
      case Wrap(_, e) => e.SqlState()
      case CommitError(e) => e.SqlState()
    }

    predicate HasNetError() {
      match this
      case Plain(_) => false
      case Pg(_) => false
      case Net(_) => true
      case Wrap(_, e) => e.HasNetError()
      case CommitError(e) => e.HasNetError()
    }
  }

  const NUMERIC_OUT_OF_RANGE := "22003"

  /** The codes of class 08 of Appendix A of the PostgreSQL documentation. */
  predicate IsConnectionException(code: string) {
    code in {"08000", "08003", "08006", "08001", "08004", "08007", "08P01"}
  }

  /** The codes of class 53 of the same appendix. */
  predicate IsInsufficientResources(code: string) {
    code in {"53000", "53100", "53200", "53300", "53400"}
  }

  /** isRetriablePgCode: 40001 and 40P01 are two batches in each other's way, 57Pxx a server that is restarting. */
  predicate IsRetriablePgCode(code: string) {
    || IsConnectionException(code)
    || IsInsufficientResources(code)
    || code == "40001" || code == "40P01"
    || code == "57P01" || code == "57P02" || code == "57P03"
  }

  /** isRetriablePgError, on an error that is not nil. */
  predicate IsRetriablePgError(err: Error) {
    if err.Is(Canceled) || err.Is(DeadlineExceeded) then false
    else if err.HasCommitError() then false
    else if err.SqlState().Some? then IsRetriablePgCode(err.SqlState().value)
    else if err.HasNetError() then true
    else
      || err.Is(BadConn) || err.Is(Eof) || err.Is(UnexpectedEof)
      || err.Is(ConnRefused) || err.Is(ConnReset) || err.Is(ConnAborted)
  }

  /** Context added around an error does not change its classification. */
  lemma WrappingIsTransparent(text: string, e: Error)
    ensures IsRetriablePgError(Wrap(text, e)) == IsRetriablePgError(e)
  {
  }

  /**
   * The conditions of Appendix A of the PostgreSQL documentation that pass by
   * themselves: connection exceptions, insufficient resources, a serialization
   * failure, a deadlock, and a server that shuts down, crashes or starts.
   */
  const PASSING := {
    "08000", "08001", "08003", "08004", "08006", "08007", "08P01",
    "53000", "53100", "53200", "53300", "53400",
    "40001", "40P01",
    "57P01", "57P02", "57P03" }

  /** Innermost error of a chain. */
  function Root(e: Error): Error {
    match e
    case Plain(_) => e
    case Pg(_) => e
    case Net(inner) => Root(inner)
    case Wrap(_, inner) => Root(inner)
    case CommitError(inner) => Root(inner)
  }

  /**
   * The classification in terms of what happened: an error is retried exactly
   * when no commit is in doubt and what is at the root of it passes by itself,
   * or is some unnamed failure that came through the network.
   */
  lemma {:induction false} RetriedExactlyWhen(e: Error)
    ensures IsRetriablePgError(e) <==>
              && !e.HasCommitError()
              && match Root(e)
                 case Pg(code) => code in PASSING
                 case Plain(c) =>
                   && c != Canceled && c != DeadlineExceeded
                   && (e.HasNetError() || c in {BadConn, Eof, UnexpectedEof, ConnRefused, ConnReset, ConnAborted})
                 case _ => false
  {
    RootFacts(e);
  }

  /** The chain of an error, from the outside in. */
  function Layers(e: Error): seq<Error> {
    match e
    case Plain(_) => [e]
    case Pg(_) => [e]
    case Net(inner) => [e] + Layers(inner)
    case Wrap(_, inner) => [e] + Layers(inner)
    case CommitError(inner) => [e] + Layers(inner)
  }

  /** What errors.As finds is a layer of the chain, and the root is the last of them. */
  lemma {:induction false} FoundExactlyWhenLayered(e: Error)
    ensures Layers(e) != [] && Root(e) == Layers(e)[|Layers(e)| - 1]
    ensures e.HasCommitError() <==> exists l :: l in Layers(e) && l.CommitError?
    ensures e.HasNetError() <==> exists l :: l in Layers(e) && l.Net?
  {
    if e.Net? || e.Wrap? || e.CommitError? {
      FoundExactlyWhenLayered(e.inner);
      assert e in Layers(e);
      assert forall l :: l in Layers(e) <==> l == e || l in Layers(e.inner);
    } else {
      assert Layers(e)[0] == e;
    }
  }

  lemma {:induction false} RootFacts(e: Error)
    ensures Root(e).Plain? || Root(e).Pg?
    ensures e.SqlState() == if Root(e).Pg? then Some(Root(e).code) else None
    ensures forall c :: e.Is(c) <==> Root(e) == Plain(c)
  {
    if e.Net? || e.Wrap? || e.CommitError? {
      RootFacts(e.inner);
    }
  }
}
