/** Audit reasons: a string built up by success and failure captures, in which the prefix "PASS" alone
    tells which kind it is. */
module Reasons {
  import opened Base

  const SECURITY_AUDIT_PASS := "PASS"
  const SEPARATOR := ", also "

  datatype Capture = Success(text: string) | Failure(text: string)

  predicate IsPass(reason: string) {
    |reason| >= 4 && reason[..4] == SECURITY_AUDIT_PASS
  }

  function ToLower(c: char): char {
    if 'A' <= c <= 'Z' then (c as int + 32) as char else c
  }

  function LowerFirst(s: string): (r: string)
    ensures |r| == |s|
  {
    if s == [] then s else [ToLower(s[0])] + s[1..]
  }

  /** InternalOsConfigAddReason */
  function Add(reason: string, text: string): string {
    reason + SEPARATOR + LowerFirst(text)
  }

  function CaptureReason(reason: Option<string>, text: string): string {
    if reason.Some? && !IsPass(reason.value) then Add(reason.value, text) else text
  }

  function CaptureSuccessReason(reason: Option<string>, text: string): string {
    if reason.Some? && IsPass(reason.value) then Add(reason.value, text) else SECURITY_AUDIT_PASS + text
  }

  function Apply(reason: Option<string>, c: Capture): string {
    match c
    case Success(text) => CaptureSuccessReason(reason, text)
    case Failure(text) => CaptureReason(reason, text)
  }

  /** The reason after a series of captures. */
  function Fold(captures: seq<Capture>): Option<string> {
    if captures == [] then None else Some(Apply(Fold(captures[..|captures| - 1]), captures[|captures| - 1]))
  }

  /** The macros' view: the caller's reason pointer and what it points to. */
  class Reason {
    var reason: Option<string>
    ghost var captures: seq<Capture>

    ghost predicate Valid()
      reads this
    {
      reason == Fold(captures)
    }

    constructor ()
      ensures Valid() && captures == []
    {
      reason, captures := None, [];
    }

    method AddReason(text: string)
      requires reason.Some?
      modifies this`reason
      ensures reason == Some(Add(old(reason).value, text))
    {
      var temp := reason.value + SEPARATOR;
      var last := LowerFirst(text);
      reason := Some(temp + last);
    }

    method OsConfigCaptureReason(text: string)
      requires Valid()
      modifies this
      ensures Valid() && captures == old(captures) + [Failure(text)]
    {
      if reason.Some? && !IsPass(reason.value) {
        AddReason(text);
      } else {
        reason := Some(text);
      }
      captures := captures + [Failure(text)];
    }

    method OsConfigCaptureSuccessReason(text: string)
      requires Valid()
      modifies this
      ensures Valid() && captures == old(captures) + [Success(text)]
    {
      if reason.Some? && IsPass(reason.value) {
        AddReason(text);
      } else {
        reason := Some(SECURITY_AUDIT_PASS + text);
      }
      captures := captures + [Success(text)];
    }

    method OsConfigResetReason()
      modifies this
      ensures Valid() && captures == []
    {
      reason, captures := None, [];
    }

    /** Tells a success from what was captured: no reason yet, or a series that ends in successes or
        in failures whose texts all look like one. */
    method OsConfigIsSuccessReason() returns (success: bool)
      requires Valid()
      ensures success <==> captures == [] || (RunsOf(captures).last != [] && LooksPassed(RunsOf(captures)))
      ensures Plain(captures) ==> (success <==> captures == [] || captures[|captures| - 1].Success?)
    {
      SuccessTold(captures);
      success := reason.None? || IsPass(reason.value);
    }
  }

  // ---------- What a reason should say ----------

  predicate SameKind(a: Capture, b: Capture) {
    a.Success? == b.Success?
  }

  /** The captures of one kind that end a series, and those of the other kind right before them. */
  datatype Runs = Runs(last: seq<Capture>, previous: seq<Capture>)

  function RunsOf(captures: seq<Capture>): Runs {
    if captures == [] then Runs([], []) else ExtendRuns(RunsOf(captures[..|captures| - 1]), captures[|captures| - 1])
  }

  function ExtendRuns(r: Runs, c: Capture): Runs {
    if r.last != [] && SameKind(r.last[0], c) then r.(last := r.last + [c]) else Runs([c], r.last)
  }

  /** `run` is the last maximal run of one kind in a series. */
  ghost predicate IsLastRun(captures: seq<Capture>, run: seq<Capture>) {
    && 1 <= |run| <= |captures|
    && captures[|captures| - |run|..] == run
    && (forall i :: 0 <= i < |run| ==> SameKind(run[i], run[0]))
    && (|run| < |captures| ==> !SameKind(captures[|captures| - |run| - 1], run[0]))
  }

  lemma LongerLastRun(prefix: seq<Capture>, run: seq<Capture>, c: Capture)
    requires IsLastRun(prefix, run) && SameKind(run[0], c)
    ensures IsLastRun(prefix + [c], run + [c])
  {
    var all, longer := prefix + [c], run + [c];
    assert all[|all| - |longer|..] == prefix[|prefix| - |run|..] + [c];
  }

  lemma NewLastRun(prefix: seq<Capture>, run: seq<Capture>, c: Capture)
    requires IsLastRun(prefix, run) && !SameKind(run[0], c)
    ensures IsLastRun(prefix + [c], [c])
  {
    assert prefix[|prefix| - 1] == run[|run| - 1];
    assert SameKind(run[|run| - 1], run[0]);
  }

  /** The run that the fold keeps apart is the last maximal run of the series, and a series has one. */
  lemma {:induction false} LastRunIsMaximal(captures: seq<Capture>)
    requires captures != []
    ensures IsLastRun(captures, RunsOf(captures).last)
  {
    var n := |captures| - 1;
    var prefix, c := captures[..n], captures[n];
    assert captures == prefix + [c];
    if prefix == [] {
      assert RunsOf(captures).last == [c];
    } else {
      LastRunIsMaximal(prefix);
      var run := RunsOf(prefix).last;
      if SameKind(run[0], c) { LongerLastRun(prefix, run, c); } else { NewLastRun(prefix, run, c); }
    }
  }

  /** Only a capital first letter changes, to its small one. */
  lemma FirstLetterLowered(first: char, rest: string)
    ensures LowerFirst("") == ""
    ensures LowerFirst([first] + rest) == [if 'A' <= first <= 'Z' then (first as int - 'A' as int + 'a' as int) as char else first] + rest
  {
    assert ([first] + rest)[1..] == rest;
  }

  /** The first captures of each kind, and what more of the same and of the other kind make of them. */
  lemma FirstCaptures(a: string, b: string)
    ensures Apply(None, Success(a)) == "PASS" + a && Apply(None, Failure(a)) == a
    ensures Apply(Some("PASS" + a), Success(b)) == "PASS" + a + ", also " + LowerFirst(b)
    ensures Apply(Some("PASS" + a), Failure(b)) == b
    ensures !("PASS" <= a) ==> Apply(Some(a), Failure(b)) == a + ", also " + LowerFirst(b) && Apply(Some(a), Success(b)) == "PASS" + b
  {
    assert ("PASS" + a)[..4] == "PASS";
    assert !("PASS" <= a) ==> !IsPass(a);
  }

  /** A run in words: the texts joined, later ones with a small first letter, behind the prefix if
      they are successes. */
  function Render(run: seq<Capture>): string
    requires run != []
  {
    var n := |run| - 1;
    if n == 0 then (if run[0].Success? then "PASS" + run[0].text else run[0].text)
    else Render(run[..n]) + ", also " + LowerFirst(run[n].text)
  }

  /** Every text of a run looks like a success. */
  predicate AllPass(run: seq<Capture>) {
    forall i :: 0 <= i < |run| ==> IsPass(run[i].text)
  }

  // ---------- When it does ----------

  lemma AddKeepsKind(reason: string, text: string)
    ensures IsPass(Add(reason, text)) <==> IsPass(reason)
  {
    var r := Add(reason, text);
    if |reason| >= 4 {
      assert r[..4] == reason[..4];
    } else {
      assert r[|reason|] == ',';
    }
  }

  lemma LongerRun(run: seq<Capture>, c: Capture)
    requires run != []
    ensures Render(run + [c]) == Add(Render(run), c.text)
    ensures AllPass(run + [c]) <==> AllPass(run) && IsPass(c.text)
  {
    var longer := run + [c];
    assert longer[..|run|] == run && longer[|run|] == c;
    assert AllPass(longer) ==> forall i :: 0 <= i < |run| ==> IsPass(longer[i].text) && longer[i] == run[i];
  }

  lemma {:induction false} RunsNonempty(captures: seq<Capture>)
    requires captures != []
    ensures RunsOf(captures).last != [] && SameKind(RunsOf(captures).last[0], captures[|captures| - 1])
  {
    if |captures| > 1 { RunsNonempty(captures[..|captures| - 1]); }
  }

  /** Whether a series ends up looking like a success: if it ends in successes, and also if every
      text of its final failures happens to start with the prefix. */
  predicate LooksPassed(r: Runs)
    requires r.last != []
  {
    r.last[0].Success? || AllPass(r.last)
  }

  /** The kind shown after one more failure of a run. */
  lemma KindAfterFailure(was: string, run: seq<Capture>, c: Capture)
    requires run != [] && c.Failure? && (IsPass(was) <==> AllPass(run))
    ensures IsPass(CaptureReason(Some(was), c.text)) <==> AllPass(run + [c])
  {
    AddKeepsKind(was, c.text);
    LongerRun(run, c);
  }

  lemma KindAfterSuccess(was: Option<string>, text: string)
    ensures IsPass(CaptureSuccessReason(was, text))
  {
    assert (SECURITY_AUDIT_PASS + text)[..4] == SECURITY_AUDIT_PASS;
    if was.Some? { AddKeepsKind(was.value, text); }
  }

  lemma SingleRun(c: Capture)
    ensures AllPass([c]) <==> IsPass(c.text)
  {
    assert [c][0] == c;
  }

  /** The step of KindShown. */
  lemma KindStep(was: string, r: Runs, c: Capture)
    requires r.last != [] && (IsPass(was) <==> LooksPassed(r))
    ensures ExtendRuns(r, c).last != []
    ensures IsPass(Apply(Some(was), c)) <==> LooksPassed(ExtendRuns(r, c))
  {
    if c.Success? {
      KindAfterSuccess(Some(was), c.text);
    } else if r.last[0].Failure? {
      KindAfterFailure(was, r.last, c);
    } else {
      SingleRun(c);
    }
  }

  lemma {:induction false} KindShown(captures: seq<Capture>)
    requires captures != []
    ensures RunsOf(captures).last != []
    ensures IsPass(Fold(captures).value) <==> LooksPassed(RunsOf(captures))
  {
    var n := |captures| - 1;
    var prefix, c := captures[..n], captures[n];
    if prefix == [] {
      if c.Success? { KindAfterSuccess(None, c.text); } else { SingleRun(c); }
    } else {
      KindShown(prefix);
      KindStep(Fold(prefix).value, RunsOf(prefix), c);
    }
  }

  /** The condition, readable off the texts, under which the reason says exactly what the last run
      captured: a failure run of several texts must not begin with a text that looks like a success,
      and a success run must not follow failures that all do. */
  predicate Renderable(r: Runs)
    requires r.last != []
  {
    if r.last[0].Failure? then |r.last| == 1 || !IsPass(r.last[0].text)
    else r.previous == [] || !AllPass(r.previous)
  }

  lemma AddInjective(a: string, b: string, text: string)
    ensures Add(a, text) == Add(b, text) <==> a == b
  {
    if Add(a, text) == Add(b, text) {
      assert a == Add(a, text)[..|a|] && b == Add(b, text)[..|b|];
    }
  }

  /** What one more failure of a run is rendered as, when `rendered` is what the run should say so far
      and `headPass`, `allPass` tell which of its texts look like successes. */
  lemma TextAfterFailure(was: string, rendered: string, text: string, single: bool, headPass: bool, allPass: bool)
    requires IsPass(was) == allPass && (allPass ==> headPass) && (single ==> allPass == headPass)
    requires was == rendered <==> single || !headPass
    ensures CaptureReason(Some(was), text) == Add(rendered, text) <==> !headPass
  {
    if allPass {
      assert |Add(rendered, text)| > |text|;
    } else {
      AddInjective(was, rendered, text);
    }
  }

  /** One more failure in a run of failures. */
  lemma FailureContinues(was: string, r: Runs, c: Capture)
    requires r.last != [] && r.last[0].Failure? && c.Failure?
    requires (IsPass(was) <==> AllPass(r.last)) && (was == Render(r.last) <==> Renderable(r))
    ensures CaptureReason(Some(was), c.text) == Render(r.last + [c]) <==> !IsPass(r.last[0].text)
  {
    var run := r.last;
    LongerRun(run, c);
    assert AllPass(run) ==> IsPass(run[0].text);
    if |run| == 1 {
      assert run == [run[0]];
      SingleRun(run[0]);
    }
    TextAfterFailure(was, Render(run), c.text, |run| == 1, IsPass(run[0].text), AllPass(run));
  }

  /** One more success in a run of successes. */
  lemma SuccessContinues(was: string, run: seq<Capture>, c: Capture)
    requires run != [] && c.Success? && IsPass(was)
    ensures CaptureSuccessReason(Some(was), c.text) == Render(run + [c]) <==> was == Render(run)
  {
    LongerRun(run, c);
    AddInjective(was, Render(run), c.text);
  }

  /** The first success after failures, or the first failure after successes. */
  lemma KindSwitches(was: string, r: Runs, c: Capture)
    requires r.last != [] && !SameKind(r.last[0], c) && (IsPass(was) <==> LooksPassed(r))
    ensures Apply(Some(was), c) == Render([c]) <==> Renderable(Runs([c], r.last))
  {
    assert |Add(was, c.text)| == |was| + 7 + |c.text|;
    assert |SECURITY_AUDIT_PASS + c.text| == 4 + |c.text|;
  }

  /** The reason says what its last run captured iff that condition holds. */
  lemma {:induction false} ReasonRendersLastRun(captures: seq<Capture>)
    requires captures != []
    ensures RunsOf(captures).last != []
    ensures Fold(captures).value == Render(RunsOf(captures).last) <==> Renderable(RunsOf(captures))
  {
    var n := |captures| - 1;
    var prefix, c := captures[..n], captures[n];
    if prefix != [] {
      KindShown(prefix);
      ReasonRendersLastRun(prefix);
      RenderStep(Fold(prefix).value, RunsOf(prefix), c);
    }
  }

  lemma RenderStep(was: string, r: Runs, c: Capture)
    requires r.last != [] && (IsPass(was) <==> LooksPassed(r)) && (was == Render(r.last) <==> Renderable(r))
    ensures ExtendRuns(r, c).last != []
    ensures Apply(Some(was), c) == Render(ExtendRuns(r, c).last) <==> Renderable(ExtendRuns(r, c))
  {
    if !SameKind(r.last[0], c) {
      KindSwitches(was, r, c);
    } else {
      assert (r.last + [c])[0] == r.last[0];
      if c.Success? { SuccessContinues(was, r.last, c); } else { FailureContinues(was, r, c); }
    }
  }

  // ---------- Judged by the audit ----------

  /** OsConfigResource.Get with expected value "PASS": compliant iff the reason starts with it. */
  predicate Compliant(expected: string, reported: string) {
    expected <= reported
  }

  const AUDIT_PASSED := "Audit passed"
  const AUDIT_FAILED := "Audit failed. See /var/log/osconfig_nrp.*"
  const SECURITY_AUDIT_FAIL := "FAIL"

  function ReasonPhrase(expected: string, reported: string): string {
    if Compliant(expected, reported) then
      if reported == expected then AUDIT_PASSED else reported[|expected|..]
    else if reported == SECURITY_AUDIT_FAIL then AUDIT_FAILED else reported
  }

  /** Judged against "PASS", a series is compliant iff its last capture was a success, unless the
      final failures all look like successes. */
  lemma VerdictOfSeries(captures: seq<Capture>)
    requires captures != []
    ensures Compliant("PASS", Fold(captures).value)
            <==> captures[|captures| - 1].Success? || AllPass(RunsOf(captures).last)
  {
    KindShown(captures);
    RunsNonempty(captures);
  }

  /** No failure text starts with the prefix. */
  predicate Plain(captures: seq<Capture>) {
    forall i :: 0 <= i < |captures| && captures[i].Failure? ==> !IsPass(captures[i].text)
  }

  /** For plain series everything is as intended: the reason renders the last run, the verdict is the
      kind of the last capture, and the phrase of a compliant series is the rendering without the
      prefix. */
  lemma PlainSeries(captures: seq<Capture>)
    requires captures != [] && Plain(captures)
    ensures RunsOf(captures).last != []
    ensures Fold(captures) == Some(Render(RunsOf(captures).last))
    ensures Compliant("PASS", Fold(captures).value) <==> captures[|captures| - 1].Success?
    ensures captures[|captures| - 1].Success? ==>
              |Fold(captures).value| >= 4 &&
              var phrase := Fold(captures).value[4..];
              ReasonPhrase("PASS", Fold(captures).value) == if phrase == "" then "Audit passed" else phrase
  {
    PlainRuns(captures);
    RunsNonempty(captures);
    ReasonRendersLastRun(captures);
    VerdictOfSeries(captures);
    if captures[|captures| - 1].Success? { PassedPhrase(Fold(captures).value); }
  }

  lemma PassedPhrase(reason: string)
    requires Compliant("PASS", reason)
    ensures |reason| >= 4
    ensures ReasonPhrase("PASS", reason) == if reason[4..] == "" then "Audit passed" else reason[4..]
  {
    assert reason == SECURITY_AUDIT_PASS + reason[4..];
  }

  lemma {:induction false} PlainRuns(captures: seq<Capture>)
    requires captures != [] && Plain(captures)
    ensures var r := RunsOf(captures);
            && r.last != [] && Plain(r.last) && Plain(r.previous)
            && (r.last[0].Success? ==> forall i :: 0 <= i < |r.previous| ==> r.previous[i].Failure?)
            && (forall i :: 0 <= i < |r.last| ==> SameKind(r.last[i], r.last[0]))
            && Renderable(r)
  {
    var n := |captures| - 1;
    if n > 0 {
      PlainRuns(captures[..n]);
      PlainStep(RunsOf(captures[..n]), captures[n]);
    }
  }

  lemma PlainStep(r: Runs, c: Capture)
    requires r.last != [] && Plain(r.last) && Plain(r.previous) && Renderable(r)
    requires r.last[0].Success? ==> forall i :: 0 <= i < |r.previous| ==> r.previous[i].Failure?
    requires forall i :: 0 <= i < |r.last| ==> SameKind(r.last[i], r.last[0])
    requires c.Failure? ==> !IsPass(c.text)
    ensures var r' := ExtendRuns(r, c);
            && r'.last != [] && Plain(r'.last) && Plain(r'.previous)
            && (r'.last[0].Success? ==> forall i :: 0 <= i < |r'.previous| ==> r'.previous[i].Failure?)
            && (forall i :: 0 <= i < |r'.last| ==> SameKind(r'.last[i], r'.last[0]))
            && Renderable(r')
  {
    var r' := ExtendRuns(r, c);
    if SameKind(r.last[0], c) {
      assert forall i :: 0 <= i < |r.last| ==> r'.last[i] == r.last[i];
    } else if c.Success? {
      assert !IsPass(r.last[0].text);
    }
  }

  /** What the prefix tells of the series, and that it is the kind of the last capture if no failure
      text starts with it. */
  lemma SuccessTold(captures: seq<Capture>)
    ensures Fold(captures).None? <==> captures == []
    ensures captures != [] ==> RunsOf(captures).last != [] && (IsPass(Fold(captures).value) <==> LooksPassed(RunsOf(captures)))
    ensures captures != [] && Plain(captures) ==> (IsPass(Fold(captures).value) <==> captures[|captures| - 1].Success?)
  {
    if captures != [] {
      KindShown(captures);
      if Plain(captures) {
        VerdictOfSeries(captures);
        PlainSeries(captures);
      }
    }
  }

  /** One failure whose text starts with the prefix is enough to pass an audit. */
  lemma LooksLikeSuccess()
    ensures Compliant("PASS", Fold([Failure("PASSWD file is missing")]).value)
  {
    var captures := [Failure("PASSWD file is missing")];
    assert captures[..0] == [];
    assert Fold(captures) == Some("PASSWD file is missing");
    assert "PASSWD file is missing"[..4] == SECURITY_AUDIT_PASS;
  }
}
