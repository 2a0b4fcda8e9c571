/** The SQLSTATE codes the proxy knows (sqlstate.rs). */
module SqlStates {
  import opened Wrappers
  import opened Bytes

  datatype SqlState =
    | TooManyConnections
    | InsufficientPrivilege
    | QueryCanceled
    | OperatorIntervention
    | CannotConnectNow
    | InvalidSqlStatementName
    | FeatureNotSupported
    | UndefinedTable
    | UndefinedColumn
    | UniqueViolation

  /** `as_str`, in ASCII. */
  function Code(s: SqlState): (code: bytes)
    ensures |code| == 5
  {
    match s
    case TooManyConnections => [53, 51, 51, 48, 48]  // 53300
    case InsufficientPrivilege => [52, 50, 53, 48, 49]  // 42501
    case QueryCanceled => [53, 55, 48, 49, 52]  // 57014
    case OperatorIntervention => [53, 55, 48, 48, 48]  // 57000
    case CannotConnectNow => [53, 55, 80, 48, 51]  // 57P03
    case InvalidSqlStatementName => [50, 54, 48, 48, 48]  // 26000
    case FeatureNotSupported => [48, 65, 48, 48, 48]  // 0A000
    case UndefinedTable => [52, 50, 80, 48, 49]  // 42P01
    case UndefinedColumn => [52, 50, 55, 48, 51]  // 42703
    case UniqueViolation => [50, 51, 53, 48, 53]  // 23505
  }

  function ParseCode(code: bytes): Option<SqlState> {
    if code == Code(TooManyConnections) then Some(TooManyConnections)
    else if code == Code(InsufficientPrivilege) then Some(InsufficientPrivilege)
    else if code == Code(QueryCanceled) then Some(QueryCanceled)
    else if code == Code(OperatorIntervention) then Some(OperatorIntervention)
    else if code == Code(CannotConnectNow) then Some(CannotConnectNow)
    else if code == Code(InvalidSqlStatementName) then Some(InvalidSqlStatementName)
    else if code == Code(FeatureNotSupported) then Some(FeatureNotSupported)
    else if code == Code(UndefinedTable) then Some(UndefinedTable)
    else if code == Code(UndefinedColumn) then Some(UndefinedColumn)
    else if code == Code(UniqueViolation) then Some(UniqueViolation)
    else None
  }

  lemma CodesDiffer(s: SqlState, t: SqlState)
    requires s != t
    ensures Code(s) != Code(t)
  {
    var c, d := Code(s), Code(t);
    var c0, c1, c2, c3, c4 := c[0], c[1], c[2], c[3], c[4];
    var d0, d1, d2, d3, d4 := d[0], d[1], d[2], d[3], d[4];
  }

  /** A code parses to a state if and only if it is that state's code. */
  lemma ParseCodeIff(code: bytes, s: SqlState)
    ensures ParseCode(code) == Some(s) <==> code == Code(s)
  {
    hide Code;
    forall t: SqlState | t != s
      ensures Code(t) != Code(s)
    {
      CodesDiffer(t, s);
    }
  }
}
