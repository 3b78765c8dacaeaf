/**
  handleSaveException of client.go: how a failed SaveEvents call is reported, and what errors.As
  finds in the report.
 */
module SaveErrors {
  import opened Common
  import opened Exceptions
  import opened Decimal
  import Parser = VersionParser

  /** What status.FromError says of an error: the name of the status code, and the status text. */
  datatype Status = Status(code: string, message: string)

  const ALREADY_EXISTS := "AlreadyExists"
  const GENERIC := "Failed to save events"

  /** errors.As with a target of type *OptimisticConcurrencyException: walks the chain of causes. */
  function AsConflict(err: GoError): Option<(int, int)> {
    match err
    case Conflict(_, _, _, e, a) => Some((e, a))
    case Exception(_, _, cause) => if cause.Some? then AsConflict(cause.value) else None
    case _ => None
  }

  /** errors.As with a target of type *OrisunException: the context it finds. */
  function AsException(err: GoError): Option<Context> {
    match err
    case Exception(_, c, _) => Some(c)
    case Conflict(_, _, cause, _, _) => if cause.Some? then AsException(cause.value) else None
    case _ => None
  }

  function Cause(err: GoError): Option<GoError> {
    match err
    case Exception(_, _, cause) => cause
    case Conflict(_, _, cause, _, _) => cause
    case _ => None
  }

  /** An error and what it wraps, from the outside in. */
  function Chain(err: GoError): seq<GoError> {
    match Cause(err)
    case None => [err]
    case Some(c) => [err] + Chain(c)
  }

  /** errors.As finds the first conflict of the chain of causes, and nothing only if there is none. */
  lemma {:induction false} AsConflictFirst(err: GoError)
    ensures AsConflict(err).None? ==> forall i :: 0 <= i < |Chain(err)| ==> !Chain(err)[i].Conflict?
    ensures AsConflict(err).Some? ==>
              exists i :: 0 <= i < |Chain(err)| && Chain(err)[i].Conflict?
                          && (Chain(err)[i].expected, Chain(err)[i].actual) == AsConflict(err).value
                          && forall j :: 0 <= j < i ==> !Chain(err)[j].Conflict?
    decreases err
  {
    var chain := Chain(err);
    assert chain[0] == err;
    if !err.Conflict? && Cause(err).Some? {
      var c := Cause(err).value;
      AsConflictFirst(c);
      assert forall i :: 0 < i < |chain| ==> chain[i] == Chain(c)[i - 1];
      if AsConflict(c).Some? {
        var i :| 0 <= i < |Chain(c)| && Chain(c)[i].Conflict? && (Chain(c)[i].expected, Chain(c)[i].actual) == AsConflict(c).value
                 && forall j :: 0 <= j < i ==> !Chain(c)[j].Conflict?;
        assert chain[i + 1] == Chain(c)[i];
      }
    }
  }

  /** And likewise the first exception. */
  lemma {:induction false} AsExceptionFirst(err: GoError)
    ensures AsException(err).None? ==> forall i :: 0 <= i < |Chain(err)| ==> !Chain(err)[i].Exception?
    ensures AsException(err).Some? ==>
              exists i :: 0 <= i < |Chain(err)| && Chain(err)[i].Exception? && Chain(err)[i].context == AsException(err).value
                          && forall j :: 0 <= j < i ==> !Chain(err)[j].Exception?
    decreases err
  {
    var chain := Chain(err);
    assert chain[0] == err;
    if !err.Exception? && Cause(err).Some? {
      var c := Cause(err).value;
      AsExceptionFirst(c);
      assert forall i :: 0 < i < |chain| ==> chain[i] == Chain(c)[i - 1];
      if AsException(c).Some? {
        var i :| 0 <= i < |Chain(c)| && Chain(c)[i].Exception? && Chain(c)[i].context == AsException(c).value
                 && forall j :: 0 <= j < i ==> !Chain(c)[j].Exception?;
        assert chain[i + 1] == Chain(c)[i];
      }
    }
  }

  class OptimisticConcurrencyException {
    const base: OrisunException
    const expectedVersion: int
    const actualVersion: int

    constructor (message: string, expectedVersion: int, actualVersion: int, cause: GoError)
      ensures fresh(base) && base.View() == Exception(message, map[], Some(cause))
      ensures this.expectedVersion == expectedVersion && this.actualVersion == actualVersion
    {
      base := new OrisunException(message, Some(cause), Some(map[]));
      this.expectedVersion, this.actualVersion := expectedVersion, actualVersion;
    }

    /** The promoted method: it changes the embedded exception, and that is what it returns. */
    method AddContext(key: string, value: Value) returns (e: OrisunException)
      modifies base
      ensures e == base && e.Entered() == old(base.Entered())[key := value]
    {
      e := base.AddContext(key, value);
    }
  }

  /** The versions of a status that reports a version conflict in a form the client can read. */
  function Versions(st: Option<Status>): Option<(int, int)> {
    if st.None? || st.value.code != ALREADY_EXISTS then None else
    var (expected, actual, parseErr) := Parser.ExtractVersionNumbers(st.value.message);
    if parseErr.None? then Some((expected, actual)) else None
  }

  /** The report, as an error value. */
  function Report(err: GoError, st: Option<Status>): GoError {
    match Versions(st)
    case Some((e, a)) =>
      Exception(st.value.message,
                map["operation" := Text("saveEvents"), "expectedVersion" := Number(e), "actualVersion" := Number(a)],
                Some(err))
    case None =>
      Exception(GENERIC,
                if st.None? then map["operation" := Text("saveEvents")]
                else map["operation" := Text("saveEvents"), "statusCode" := Text(st.value.code),
                         "statusDescription" := Text(st.value.message)],
                Some(err))
  }

  method HandleSaveException(err: GoError, st: Option<Status>) returns (r: OrisunException)
    ensures fresh(r) && r.View() == Report(err, st)
  {
    if st.None? {
      r := new OrisunException(GENERIC, Some(err), Some(map[]));
      r := r.AddContext("operation", Text("saveEvents"));
      return;
    }
    if st.value.code == ALREADY_EXISTS {
      var (expected, actual, parseErr) := Parser.ExtractVersionNumbers(st.value.message);
      if parseErr.None? {
        var c := new OptimisticConcurrencyException(st.value.message, expected, actual, err);
        r := c.AddContext("operation", Text("saveEvents"));
        r := r.AddContext("expectedVersion", Number(expected));
        r := r.AddContext("actualVersion", Number(actual));
        return;
      }
    }
    r := new OrisunException(GENERIC, Some(err), Some(map[]));
    r := r.AddContext("operation", Text("saveEvents"));
    r := r.AddContext("statusCode", Text(st.value.code));
    r := r.AddContext("statusDescription", Text(st.value.message));
  }

  lemma VersionsIff(st: Option<Status>, e: int, a: int)
    ensures Versions(st) == Some((e, a))
            <==> st.Some? && st.value.code == "AlreadyExists"
                 && exists m :: Parser.Chosen(st.value.message, m)
                                && Parser.Expected(st.value.message, m) == e <= 9223372036854775807
                                && Parser.Actual(st.value.message, m) == a <= 9223372036854775807
  {
    if st.Some? {
      Parser.ExtractIff(st.value.message, e, a);
    }
  }

  /**
    The report names the versions (e, a) exactly when the status code is AlreadyExists and the
    regular expression chooses a match of the status text with these two int64 numbers; it then
    carries the status text, and otherwise the generic text. The cause is always the error given.
   */
  lemma ReportsVersionsIff(err: GoError, st: Option<Status>, e: int, a: int)
    ensures var r := Report(err, st);
            && r.cause == Some(err)
            && r.context.Keys == (if "expectedVersion" in r.context then {"operation", "expectedVersion", "actualVersion"}
                                  else if st.None? then {"operation"}
                                  else {"operation", "statusCode", "statusDescription"})
            && r.context["operation"] == Text("saveEvents")
            && ("expectedVersion" in r.context <==> "actualVersion" in r.context)
            && ("expectedVersion" in r.context && r.context["expectedVersion"] == Number(e) && r.context["actualVersion"] == Number(a)
                <==> st.Some? && st.value.code == "AlreadyExists"
                     && exists m :: Parser.Chosen(st.value.message, m)
                                    && Parser.Expected(st.value.message, m) == e <= 9223372036854775807
                                    && Parser.Actual(st.value.message, m) == a <= 9223372036854775807)
            && r.message == (if "expectedVersion" in r.context then st.value.message else "Failed to save events")
            && (st.Some? && "expectedVersion" !in r.context ==>
                  r.context["statusCode"] == Text(st.value.code) && r.context["statusDescription"] == Text(st.value.message))
  {
    VersionsIff(st, e, a);
  }

  /** A conflict as the server words it, inside any text, reaches the caller with its two versions. */
  lemma ConflictReported(err: GoError, prefix: string, e: nat, a: nat, suffix: string)
    requires e <= MAX_INT64 && a <= MAX_INT64
    requires forall m: Parser.Match :: !Parser.Fits(prefix, m)
    requires !Parser.StartsWithDigit(suffix)
    ensures var text := prefix + Parser.Printed(e, a) + suffix;
            Report(err, Some(Status(ALREADY_EXISTS, text)))
            == Exception(text, map["operation" := Text("saveEvents"), "expectedVersion" := Number(e), "actualVersion" := Number(a)],
                         Some(err))
  {
    Parser.RoundTrip(prefix, e, a, suffix);
  }

  /** What the caller reads: a conflict in the words of the server, with its context in the order of the keys. */
  lemma ConflictText(err: GoError, prefix: string, e: nat, a: nat, suffix: string)
    requires e <= 9223372036854775807 && a <= 9223372036854775807
    requires forall m: Parser.Match :: !Parser.Fits(prefix, m)
    requires suffix == "" || suffix[0] !in "0123456789"
    ensures var text := prefix + ("Expected " + Print(e) + ", Actual " + Print(a)) + suffix;
            var r := Report(err, Some(Status("AlreadyExists", text)));
            Rendered(r.message, r.context)
            == text + " [Context: " + "actualVersion" + "=" + Print(a) + ", " + "expectedVersion" + "=" + Print(e)
                    + ", " + "operation" + "=" + "saveEvents" + "]"
  {
    Parser.VersionsInWords(prefix, e, a, suffix);
    ConflictRendered(prefix + ("Expected " + Print(e) + ", Actual " + Print(a)) + suffix, e, a);
  }

  lemma ConflictRendered(text: string, e: nat, a: nat)
    ensures Rendered(text, map["operation" := Text("saveEvents"), "expectedVersion" := Number(e), "actualVersion" := Number(a)])
            == text + " [Context: " + "actualVersion" + "=" + Print(a) + ", " + "expectedVersion" + "=" + Print(e)
                    + ", " + "operation" + "=" + "saveEvents" + "]"
  {
    LessIs("actualVersion", "expectedVersion", 0);
    LessIs("expectedVersion", "operation", 0);
    ThreeEntries(text, "actualVersion", Number(a), "expectedVersion", Number(e), "operation", Text("saveEvents"));
    ShownIs("saveEvents", a);
    ShownIs("", e);
    Reordered("operation", Text("saveEvents"), "expectedVersion", Number(e), "actualVersion", Number(a));
  }

  lemma Reordered(k: string, v: Value, l: string, w: Value, n: string, x: Value)
    requires k != l && l != n && k != n
    ensures map[k := v, l := w, n := x] == map[n := x, l := w, k := v]
  {
  }

  lemma FailureRendered(code: string, message: string)
    ensures Rendered(GENERIC, map["operation" := Text("saveEvents"), "statusCode" := Text(code), "statusDescription" := Text(message)])
            == "Failed to save events" + " [Context: " + "operation" + "=" + "saveEvents" + ", " + "statusCode" + "=" + code
                  + ", " + "statusDescription" + "=" + message + "]"
  {
    LessIs("operation", "statusCode", 0);
    LessIs("statusCode", "statusDescription", 6);
    ThreeEntries(GENERIC, "operation", Text("saveEvents"), "statusCode", Text(code), "statusDescription", Text(message));
    ShownIs("saveEvents", 0);
    ShownIs(code, 0);
    ShownIs(message, 0);
  }

  /** And any other failure: a status without versions to name, and an error without a status. */
  lemma FailureText(err: GoError, code: string, message: string)
    ensures code != "AlreadyExists" || Parser.ExtractVersionNumbers(message).2.Some? ==>
              var r := Report(err, Some(Status(code, message)));
              Rendered(r.message, r.context)
              == "Failed to save events" + " [Context: " + "operation" + "=" + "saveEvents" + ", " + "statusCode" + "=" + code
                    + ", " + "statusDescription" + "=" + message + "]"
    ensures var r := Report(err, None);
            Rendered(r.message, r.context) == "Failed to save events" + " [Context: " + "operation" + "=" + "saveEvents" + "]"
  {
    FailureRendered(code, message);
    RenderedFirst(GENERIC, "operation", Text("saveEvents"));
    ShownIs("saveEvents", 0);
  }

  /**
    errors.As finds a conflict in a report exactly when the original error already carried that
    conflict: the exception that handleSaveException builds for the purpose is never found, because
    AddContext returns the exception embedded in it.
   */
  lemma ConflictTypeIsLost(err: GoError, st: Option<Status>)
    ensures AsConflict(Report(err, st)) == AsConflict(err)
    ensures AsException(Report(err, st)) == Some(Report(err, st).context)
  {
  }

  /** The documented use of errors.As fails for a plain version conflict. */
  lemma DocumentedConflictNotFound(e: nat, a: nat)
    requires e <= MAX_INT64 && a <= MAX_INT64
    ensures var text := "" + Parser.Printed(e, a) + "";
            var r := Report(StatusError(ALREADY_EXISTS, text), Some(Status(ALREADY_EXISTS, text)));
            && AsConflict(r) == None
            && AsException(r).Some? && "expectedVersion" in AsException(r).value
            && AsException(r).value["expectedVersion"] == Number(e)
  {
    var text := "" + Parser.Printed(e, a) + "";
    ConflictReported(StatusError(ALREADY_EXISTS, text), "", e, a, "");
  }
}
