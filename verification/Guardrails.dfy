/** The input and output checks around every model call. */
module Guardrails {
  import opened Wrappers

  datatype Response = Response(classification: string, suggestion: string, confidence: real, requiresReview: bool,
                               reasons: seq<string>)

  const NO_RESPONSE := Response("", "", 0.0, false, [])

  /** Length of a text in UTF-8, which is what Go's `len` counts. */
  function ByteLength(s: string): nat {
    if |s| == 0 then 0
    else
      var c := s[0] as int;
      (if c < 0x80 then 1 else if c < 0x800 then 2 else if c < 0x1_0000 then 3 else 4) + ByteLength(s[1..])
  }

  /** A text's length in bytes is that of its characters together, and its own only if it is all ASCII. */
  lemma {:induction false} ByteLengthExactly(s: string)
    ensures |s| <= ByteLength(s) <= 4 * |s|
    ensures ByteLength(s) == |s| <==> forall i :: 0 <= i < |s| ==> s[i] < '\U{80}'
    ensures forall t :: ByteLength(s + t) == ByteLength(s) + ByteLength(t)
  {
    if |s| > 0 {
      ByteLengthExactly(s[1..]);
      assert forall i :: 1 <= i < |s| ==> s[i] == s[1..][i-1];
      forall t
        ensures ByteLength(s + t) == ByteLength(s) + ByteLength(t)
      {
        assert (s + t)[0] == s[0] && (s + t)[1..] == s[1..] + t;
      }
    } else {
      assert forall t :: s + t == t;
    }
  }

  /** UTF-8 as section 3 of RFC 3629 has it. */
  function Utf8Char(c: char): seq<nat> {
    var n: nat := c as int;
    if n <= 0x7F then [n]
    else if n <= 0x7FF then [0xC0 + n / 0x40, 0x80 + n % 0x40]
    else if n <= 0xFFFF then [0xE0 + n / 0x1000, 0x80 + n / 0x40 % 0x40, 0x80 + n % 0x40]
    else [0xF0 + n / 0x4_0000, 0x80 + n / 0x1000 % 0x40, 0x80 + n / 0x40 % 0x40, 0x80 + n % 0x40]
  }

  function Utf8(s: string): seq<nat> {
    if |s| == 0 then [] else Utf8Char(s[0]) + Utf8(s[1..])
  }

  lemma Utf8CharBytes(c: char)
    ensures 1 <= |Utf8Char(c)| <= 4 && forall i :: 0 <= i < |Utf8Char(c)| ==> Utf8Char(c)[i] < 0x100
  {
    assert c as int < 0x11_0000;
  }

  lemma {:induction false} ByteLengthIsUtf8(s: string)
    ensures ByteLength(s) == |Utf8(s)|
    ensures forall i :: 0 <= i < |Utf8(s)| ==> Utf8(s)[i] < 0x100
  {
    if |s| > 0 {
      Utf8CharBytes(s[0]);
      ByteLengthIsUtf8(s[1..]);
    }
  }

  /** The first error that any of the checks reports. */
  function FirstError<T>(checks: seq<T -> Option<string>>, x: T): Option<string> {
    if |checks| == 0 then None
    else if checks[0](x).Some? then checks[0](x)
    else FirstError(checks[1..], x)
  }

  lemma {:induction false} FirstErrorNone<T>(checks: seq<T -> Option<string>>, x: T)
    ensures FirstError(checks, x).None? <==> forall i :: 0 <= i < |checks| ==> checks[i](x).None?
  {
    if |checks| > 0 {
      FirstErrorNone(checks[1..], x);
      assert forall i :: 1 <= i < |checks| ==> checks[i] == checks[1..][i-1];
    }
  }

  /** The error reported is that of the first check that reports one. */
  lemma {:induction false} FirstErrorIsFirst<T>(checks: seq<T -> Option<string>>, x: T) returns (i: nat)
    requires FirstError(checks, x).Some?
    ensures i < |checks| && checks[i](x) == FirstError(checks, x)
    ensures forall j :: 0 <= j < i ==> checks[j](x).None?
  {
    if checks[0](x).Some? {
      i := 0;
    } else {
      i := FirstErrorIsFirst(checks[1..], x);
      i := i + 1;
      assert forall j :: 1 <= j < i ==> checks[j] == checks[1..][j-1];
    }
  }

  /** The settings in force during one check. Patterns are matched against the lower-cased text. */
  datatype Policy = Policy(maxInputBytes: nat, minConfidence: real, lower: string -> string,
                           injection: seq<string -> bool>,
                           inputChecks: seq<string -> Option<string>>,
                           outputChecks: seq<Response -> Option<string>>)

  function InputError(p: Policy, s: string): Option<string> {
    if ByteLength(s) > p.maxInputBytes then Some("orchestrator: input exceeds max bytes")
    else if exists i :: 0 <= i < |p.injection| && p.injection[i](p.lower(s)) then
      Some("orchestrator: prompt-injection pattern detected")
    else FirstError(p.inputChecks, s)
  }

  function OutputError(p: Policy, r: Response): Option<string> {
    if r.classification == "" then Some("orchestrator: classification required")
    else if r.confidence < 0.0 || r.confidence > 1.0 then Some("orchestrator: confidence out of range")
    else if r.confidence < p.minConfidence && !r.requiresReview then
      Some("orchestrator: low confidence without requires_review")
    else FirstError(p.outputChecks, r)
  }

  /** A text is accepted exactly when it is short enough, matches no injection pattern, and passes all checks. */
  lemma InputAccepted(p: Policy, s: string)
    ensures InputError(p, s).None? <==>
      && ByteLength(s) <= p.maxInputBytes
      && (forall i :: 0 <= i < |p.injection| ==> !p.injection[i](p.lower(s)))
      && forall i :: 0 <= i < |p.inputChecks| ==> p.inputChecks[i](s).None?
  {
    FirstErrorNone(p.inputChecks, s);
  }

  /** A response is accepted exactly when it is classified, in range, confident or flagged, and passes all checks. */
  lemma OutputAccepted(p: Policy, r: Response)
    ensures OutputError(p, r).None? <==>
      && r.classification != "" && 0.0 <= r.confidence <= 1.0
      && (r.confidence >= p.minConfidence || r.requiresReview)
      && forall i :: 0 <= i < |p.outputChecks| ==> p.outputChecks[i](r).None?
  {
    FirstErrorNone(p.outputChecks, r);
  }

  /** Which defect is reported when there are several. */
  lemma InputDefectOrder(p: Policy, s: string)
    ensures ByteLength(s) > p.maxInputBytes ==> InputError(p, s) == Some("orchestrator: input exceeds max bytes")
    ensures ByteLength(s) <= p.maxInputBytes && (exists i :: 0 <= i < |p.injection| && p.injection[i](p.lower(s))) ==>
      InputError(p, s) == Some("orchestrator: prompt-injection pattern detected")
  {
  }

  lemma OutputDefectOrder(p: Policy, r: Response)
    ensures r.classification == "" ==> OutputError(p, r) == Some("orchestrator: classification required")
    ensures r.classification != "" && !(0.0 <= r.confidence <= 1.0) ==>
      OutputError(p, r) == Some("orchestrator: confidence out of range")
    ensures (r.classification != "" && 0.0 <= r.confidence <= 1.0 && r.confidence < p.minConfidence
             && !r.requiresReview) ==>
      OutputError(p, r) == Some("orchestrator: low confidence without requires_review")
  {
  }

  class Guardrails {
    var maxInputBytes: nat
    var minConfidence: real
    const lower: string -> string
    const injection: seq<string -> bool>
    var inputValidators: seq<string -> Option<string>>
    var outputValidators: seq<Response -> Option<string>>

    function Settings(): Policy
      reads this
    {
      Policy(maxInputBytes, minConfidence, lower, injection, inputValidators, outputValidators)
    }

    /** `injection` holds the three default patterns, as predicates on lower-cased text. */
    constructor NewDefault(lower: string -> string, injection: seq<string -> bool>)
      ensures Settings() == Policy(65536, 0.6, lower, injection, [], [])
    {
      maxInputBytes, minConfidence := 65536, 0.6;
      this.lower, this.injection := lower, injection;
      inputValidators, outputValidators := [], [];
    }

    method ValidateInput(s: string) returns (err: Option<string>)
      ensures err == InputError(Settings(), s)
    {
      if ByteLength(s) > maxInputBytes {
        return Some("orchestrator: input exceeds max bytes");
      }
      var text := lower(s);
      for i := 0 to |injection|
        invariant forall j :: 0 <= j < i ==> !injection[j](text)
      {
        if injection[i](text) {
          return Some("orchestrator: prompt-injection pattern detected");
        }
      }
      err := FirstOf(inputValidators, s);
    }

    method ValidateOutput(r: Response) returns (err: Option<string>)
      ensures err == OutputError(Settings(), r)
    {
      if r.classification == "" {
        return Some("orchestrator: classification required");
      }
      if r.confidence < 0.0 || r.confidence > 1.0 {
        return Some("orchestrator: confidence out of range");
      }
      if r.confidence < minConfidence {
        if !r.requiresReview {
          return Some("orchestrator: low confidence without requires_review");
        }
      }
      err := FirstOf(outputValidators, r);
    }

    method SetMinConfidence(c: real)
      modifies this
      ensures Settings() == old(Settings()).(minConfidence := c)
    {
      minConfidence := c;
    }

    method AddInputValidator(v: string -> Option<string>)
      modifies this
      ensures Settings() == old(Settings()).(inputChecks := old(inputValidators) + [v])
    {
      inputValidators := inputValidators + [v];
    }

    method AddOutputValidator(v: Response -> Option<string>)
      modifies this
      ensures Settings() == old(Settings()).(outputChecks := old(outputValidators) + [v])
    {
      outputValidators := outputValidators + [v];
    }
  }

  method FirstOf<T>(checks: seq<T -> Option<string>>, x: T) returns (err: Option<string>)
    ensures err == FirstError(checks, x)
  {
    for i := 0 to |checks|
      invariant FirstError(checks, x) == FirstError(checks[i..], x)
    {
      err := checks[i](x);
      assert checks[i..][1..] == checks[i+1..];
      if err.Some? {
        return;
      }
    }
    err := None;
  }
}
