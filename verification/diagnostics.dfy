/** Diagnostics as src/core/stlap.ts reports them: a range, an optional
    severity and a message. */
module Diagnostics {
  import opened Results
  import opened Syntax

  /** `DiagnosticSeverity` 1..4. */
  datatype Severity = Error | Warning | Information | Hint

  /** The severity is optional, as in the source's interface. */
  datatype Diagnostic = Diagnostic(range: Range, severity: Option<Severity>, message: string)

  /** The number of diagnostics whose severity is `Error`. */
  function ErrorCount(ds: seq<Diagnostic>): (n: nat)
    ensures n <= |ds|
  {
    if ds == [] then 0
    else ErrorCount(ds[..|ds| - 1]) + (if ds[|ds| - 1].severity == Some(Error) then 1 else 0)
  }

  /** `isValid`: no diagnostic has severity `Error`; diagnostics without a
      severity or with a milder one do not count. */
  function IsValid(ds: seq<Diagnostic>): (b: bool)
  {
    ErrorCount(ds) == 0
  }

  lemma {:induction false} IsValidMeansNoError(ds: seq<Diagnostic>)
    ensures IsValid(ds) <==> forall i :: 0 <= i < |ds| ==> ds[i].severity != Some(Error)
  {
    if ds != [] {
      IsValidMeansNoError(ds[..|ds| - 1]);
      if !IsValid(ds) && ErrorCount(ds[..|ds| - 1]) > 0 {
        var i :| 0 <= i < |ds| - 1 && ds[..|ds| - 1][i].severity == Some(Error);
        assert ds[i].severity == Some(Error);
      }
    }
  }
}
