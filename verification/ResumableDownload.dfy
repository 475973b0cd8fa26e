/** Downloading one stored file in as many attempts as it takes: the server deletes the file once it
    has written it to the end, or when it expires; the client resumes from the length it holds. */
module ResumableDownload {
  import opened RangeHeader

  type byte = bv8

  const COPY_BUFFER: nat := 32768

  // ---------- the server's side of one attempt ----------

  datatype Response =
    | Body(start: nat, sent: seq<byte>)
    | RangeNotSatisfiable
    | NotFound

  /** Where a response starts: no header asks for the whole file. */
  function StartOf(header: Option<string>, size: nat): Option<nat> {
    if header.None? || header.value == "" then Some(0) else ParseRangeStart(header.value, size)
  }

  /** The bytes written before the connection breaks, which it does after reach bytes if it does. */
  function Written(content: seq<byte>, start: nat, reach: nat): seq<byte>
    requires start <= |content|
  {
    if reach < |content| - start then content[start..start + reach] else content[start..]
  }

  class StoredFile {
    const content: seq<byte>
    const createdAt: int
    var present: bool

    constructor (content: seq<byte>, createdAt: int)
      ensures this.content == content && this.createdAt == createdAt && present
    {
      this.content, this.createdAt := content, createdAt;
      present := true;
    }

    /** The hourly clean-up: file and metadata of everything created before go, whatever was fetched. */
    method CleanIfExpired(before: int)
      modifies this
      ensures present == (old(present) && createdAt >= before)
    {
      if createdAt < before {
        present := false;
      }
    }

    /** io.Copy: buffer after buffer until the end or an error. */
    method Copy(start: nat, reach: nat) returns (sent: seq<byte>)
      requires start <= |content|
      ensures sent == Written(content, start, reach)
    {
      sent := [];
      var at := start;
      while at < |content| && |sent| < reach
        invariant start <= at <= |content|
        invariant at - start == |sent| <= reach && sent == content[start..at]
      {
        var n := if |content| - at < COPY_BUFFER then |content| - at else COPY_BUFFER;
        if reach - |sent| < n {
          n := reach - |sent|;
        }
        sent := sent + content[at..at + n];
        at := at + n;
      }
    }

    /** The file goes only after its last byte was written without an error; an interrupted transfer
        and an unsatisfiable range leave it in place. */
    method Download(header: Option<string>, reach: nat, broke: bool) returns (r: Response)
      modifies this
      ensures !old(present) ==> r == NotFound && !present
      ensures old(present) && StartOf(header, |content|).None? ==> r == RangeNotSatisfiable && present
      ensures old(present) && StartOf(header, |content|).Some? ==>
                var start := StartOf(header, |content|).value;
                && start <= |content|
                && r == Body(start, Written(content, start, reach))
                && (present <==> broke || start + |r.sent| != |content|)
    {
      if !present {
        return NotFound;
      }
      var start := 0;
      if header.Some? && header.value != "" {
        var s := ParseRangeStart(header.value, |content|);
        if s.None? {
          return RangeNotSatisfiable;
        }
        start := s.value;
      }
      var sent := Copy(start, reach);
      r := Body(start, sent);
      if broke || start + |sent| != |content| {
        return;
      }
      present := false;
    }
  }

  // ---------- client and server over many attempts ----------

  /** held is what the client has put together so far. */
  datatype State = State(present: bool, held: seq<byte>)

  /** One attempt: the connection carries reach bytes at most; of the bytes written the client receives
      the first got; broke is an error reported by the copy. */
  datatype Attempt = Attempt(reach: nat, got: nat, broke: bool)

  function Header(held: nat): Option<string> {
    if held == 0 then None else Some(OpenRange(held))
  }

  function Sent(content: seq<byte>, s: State, a: Attempt): seq<byte> {
    var start := StartOf(Header(|s.held|), |content|);
    if !s.present || start.None? || start.value > |content| then [] else Written(content, start.value, a.reach)
  }

  /** The attempt ends with the file written to its end. */
  predicate Completes(content: seq<byte>, s: State, a: Attempt) {
    var start := StartOf(Header(|s.held|), |content|);
    s.present && start.Some? && !a.broke && start.value + |Sent(content, s, a)| == |content|
  }

  function Received(content: seq<byte>, s: State, a: Attempt): seq<byte> {
    var sent := Sent(content, s, a);
    if a.got < |sent| then sent[..a.got] else sent
  }

  function Attempted(content: seq<byte>, s: State, a: Attempt): State {
    State(s.present && !Completes(content, s, a), s.held + Received(content, s, a))
  }

  /** The server's Download does what one attempt of the run does. */
  method Resume(file: StoredFile, held: seq<byte>, a: Attempt) returns (more: seq<byte>)
    modifies file
    ensures State(file.present, more) == Attempted(file.content, State(old(file.present), held), a)
  {
    hide ParseRangeStart, OpenRange, Written;
    var r := file.Download(Header(|held|), a.reach, a.broke);
    more := held;
    if r.Body? {
      more := held + if a.got < |r.sent| then r.sent[..a.got] else r.sent;
    }
  }

  /** Between attempts the file may expire. */
  datatype Step = Try(attempt: Attempt) | Expire

  function Do(content: seq<byte>, s: State, step: Step): State {
    match step
    case Try(a) => Attempted(content, s, a)
    case Expire => s.(present := false)
  }

  function Run(content: seq<byte>, steps: seq<Step>): State {
    if steps == [] then State(true, []) else
      Do(content, Run(content, steps[..|steps| - 1]), steps[|steps| - 1])
  }

  lemma RunStep(content: seq<byte>, steps: seq<Step>)
    requires steps != []
    ensures Run(content, steps) == Do(content, Run(content, steps[..|steps| - 1]), steps[|steps| - 1])
  {
    hide Do;
  }

  lemma ResumeStart(content: seq<byte>, held: nat)
    requires |content| < INT64_LIMIT && held <= |content|
    ensures StartOf(Header(held), |content|) == if held == 0 || held < |content| then Some(held) else None
  {
    if held > 0 {
      OpenRangeRoundTrip(held, |content|);
      assert OpenRange(held)[0] == 'b';
    }
  }

  lemma AttemptExtends(content: seq<byte>, s: State, a: Attempt)
    requires |content| < INT64_LIMIT && s.held <= content
    ensures s.held <= Attempted(content, s, a).held <= content
    ensures Completes(content, s, a) ==> s.held + Sent(content, s, a) == content
  {
    hide ParseRangeStart, OpenRange;
    ResumeStart(content, |s.held|);
    var sent := Sent(content, s, a);
    assert s.held == content[..|s.held|];
    assert sent <= content[|s.held|..];
    assert content == s.held + content[|s.held|..];
  }

  /** Whatever the connection and the clock do, what the client holds only grows and is always the
      beginning of the file: no byte is repeated or skipped where one attempt resumes another. */
  lemma {:induction false} HeldIsGrowingPrefix(content: seq<byte>, steps: seq<Step>, n: nat)
    requires |content| < INT64_LIMIT && n <= |steps|
    ensures Run(content, steps[..n]).held <= Run(content, steps).held <= content
    decreases |steps|
  {
    hide Attempted;
    if steps == [] {
      assert steps[..n] == [];
    } else {
      var front, step := steps[..|steps| - 1], steps[|steps| - 1];
      HeldIsGrowingPrefix(content, front, if n < |steps| then n else |front|);
      if step.Try? {
        AttemptExtends(content, Run(content, front), step.attempt);
      }
      if n < |steps| {
        assert front[..n] == steps[..n];
      } else {
        assert steps[..n] == steps;
      }
    }
  }

  function Least(a: nat, b: nat): nat {
    if a < b then a else b
  }

  /** An attempt of a client that lacks something brings as many further bytes as the connection carries
      and the client receives, and the file is deleted exactly when the last byte was written without an
      error. */
  lemma AttemptAdvances(content: seq<byte>, held: nat, a: Attempt)
    requires held < |content| < INT64_LIMIT
    ensures var s' := Attempted(content, State(true, content[..held]), a);
            && s'.held == content[..held + Least(Least(a.reach, a.got), |content| - held)]
            && (s'.present <==> a.broke || a.reach < |content| - held)
  {
    hide ParseRangeStart, OpenRange;
    var s := State(true, content[..held]);
    ResumeStart(content, held);
    var sent := Sent(content, s, a);
    assert sent == content[held..held + Least(a.reach, |content| - held)];
    assert Received(content, s, a) == content[held..held + Least(Least(a.reach, a.got), |content| - held)];
  }

  /** As many attempts as the file has bytes are enough, if each carries one byte to the client. */
  lemma {:induction false} EnoughAttemptsFinish(content: seq<byte>, steps: seq<Step>)
    requires |content| < INT64_LIMIT
    requires forall step | step in steps :: step.Try? && step.attempt.got >= step.attempt.reach >= 1
    ensures Run(content, steps).held == content || |Run(content, steps).held| >= |steps|
    decreases |steps|
  {
    hide Do, Run;
    if steps != [] {
      var front, step := steps[..|steps| - 1], steps[|steps| - 1];
      var s := Run(content, front);
      EnoughAttemptsFinish(content, front);
      RunStep(content, steps);
      HeldIsGrowingPrefix(content, front, |front|);
      HeldIsGrowingPrefix(content, steps, |front|);
      DeletedOnlyWhenWhole(content, front);
      assert front[..|front|] == front && step in steps;
      if s.held != content {
        assert s.held == content[..|s.held|] && s.present;
        AttemptAdvances(content, |s.held|, step.attempt);
        OneTry(content, s, step.attempt);
      } else {
        assert Run(content, steps).held == content;
      }
    }
  }

  lemma OneTry(content: seq<byte>, s: State, a: Attempt)
    ensures Do(content, s, Try(a)) == Attempted(content, s, a)
  {}

  /** Step n of the run is the one after which the file is gone. */
  ghost predicate RemovedBy(content: seq<byte>, steps: seq<Step>, n: nat)
    requires n < |steps|
  {
    Run(content, steps[..n]).present && !Run(content, steps[..n + 1]).present
  }

  lemma {:induction false} SomeStepRemoves(content: seq<byte>, steps: seq<Step>) returns (n: nat)
    requires !Run(content, steps).present
    ensures n < |steps| && RemovedBy(content, steps, n)
    decreases |steps|
  {
    hide Do;
    var front := steps[..|steps| - 1];
    if Run(content, front).present {
      n := |front|;
      assert steps[..n + 1] == steps;
    } else {
      n := SomeStepRemoves(content, front);
      assert front[..n] == steps[..n] && front[..n + 1] == steps[..n + 1];
    }
  }

  lemma {:induction false} NothingAfterRemoval(content: seq<byte>, steps: seq<Step>, m: nat)
    requires m <= |steps| && !Run(content, steps[..m]).present
    ensures Run(content, steps) == Run(content, steps[..m])
    decreases |steps|
  {
    hide Do;
    if m == |steps| {
      assert steps[..m] == steps;
    } else {
      var front := steps[..|steps| - 1];
      assert front[..m] == steps[..m];
      NothingAfterRemoval(content, front, m);
      NothingMoreHappens(content, Run(content, front), steps[|steps| - 1]);
    }
  }

  lemma NothingMoreHappens(content: seq<byte>, s: State, step: Step)
    requires !s.present
    ensures Do(content, s, step) == s
  {
    assert s.held + [] == s.held;
  }

  /** The client gets everything out of the step that removes the file: every byte an attempt wrote, or,
      at an expiry, it has the whole file already. */
  predicate GetsAll(content: seq<byte>, s: State, step: Step) {
    match step
    case Try(a) => a.got >= |Sent(content, s, a)|
    case Expire => s.held == content
  }

  /** Once the file is gone, the client holds all of it exactly when it received every byte that the
      deleting attempt wrote, or, if the file expired, when it held the whole file by then. */
  lemma RemovedWholeIffGotAll(content: seq<byte>, steps: seq<Step>, n: nat)
    requires |content| < INT64_LIMIT && n < |steps| && RemovedBy(content, steps, n)
    ensures Run(content, steps).held == content <==> GetsAll(content, Run(content, steps[..n]), steps[n])
  {
    hide Sent, Completes, Attempted;
    var s, step := Run(content, steps[..n]), steps[n];
    assert steps[..n + 1][..n] == steps[..n];
    HeldIsGrowingPrefix(content, steps[..n], 0);
    NothingAfterRemoval(content, steps, n + 1);
    if step.Try? {
      AttemptExtends(content, s, step.attempt);
      GoneByAttempt(content, s, step.attempt);
      HeldAfterCompletion(content, s, step.attempt);
    }
  }

  lemma GoneByAttempt(content: seq<byte>, s: State, a: Attempt)
    ensures s.present && !Attempted(content, s, a).present ==> Completes(content, s, a)
  {
    hide Completes, Sent;
  }

  lemma HeldAfterCompletion(content: seq<byte>, s: State, a: Attempt)
    requires Completes(content, s, a) && s.held + Sent(content, s, a) == content
    ensures Attempted(content, s, a).held == content <==> a.got >= |Sent(content, s, a)|
  {
    if a.got < |Sent(content, s, a)| {
      assert |Attempted(content, s, a).held| < |content|;
    }
  }

  /** Step n removes the file from under a client that does not get all of it. */
  ghost predicate LostAt(content: seq<byte>, steps: seq<Step>, n: nat)
    requires n < |steps|
  {
    RemovedBy(content, steps, n) && !GetsAll(content, Run(content, steps[..n]), steps[n])
  }

  /** The file is gone and the client lacks part of it exactly when it expired while the client still
      lacked some, or the attempt that deleted it was not received in full. */
  lemma LostIffExpiredOrUnreceived(content: seq<byte>, steps: seq<Step>)
    requires |content| < INT64_LIMIT
    ensures !Run(content, steps).present && Run(content, steps).held != content <==>
            exists n: nat | n < |steps| :: LostAt(content, steps, n)
  {
    hide GetsAll, Run;
    if !Run(content, steps).present {
      var n := SomeStepRemoves(content, steps);
      RemovedWholeIffGotAll(content, steps, n);
      assert Run(content, steps).held != content ==> LostAt(content, steps, n);
    }
    if n: nat :| n < |steps| && LostAt(content, steps, n) {
      RemovedWholeIffGotAll(content, steps, n);
      NothingAfterRemoval(content, steps, n + 1);
    }
  }

  /** One attempt is enough to lose a file: everything is written, nothing arrives. */
  lemma DeletedBeforeReceived(content: seq<byte>)
    requires 0 < |content| < INT64_LIMIT
    ensures Run(content, [Try(Attempt(|content|, 0, false))]) == State(false, [])
  {
    var a := Attempt(|content|, 0, false);
    assert [Try(a)][..0] == [];
    ResumeStart(content, 0);
    assert Completes(content, State(true, []), a);
  }

  /** So is an interruption and an expiry: the client has received every byte ever written. */
  lemma ExpiredBeforeWhole(content: seq<byte>, k: nat)
    requires 0 < k < |content| < INT64_LIMIT
    ensures Run(content, [Try(Attempt(k, k, false)), Expire]) == State(false, content[..k])
  {
    hide Do;
    var steps := [Try(Attempt(k, k, false)), Expire];
    assert steps[..1] == [Try(Attempt(k, k, false))] && steps[..1][..0] == [];
    RunStep(content, steps);
    RunStep(content, steps[..1]);
    FirstAttempt(content, k);
    ExpireStep(content, k);
  }

  lemma FirstAttempt(content: seq<byte>, k: nat)
    requires 0 < k < |content| < INT64_LIMIT
    ensures Do(content, State(true, []), Try(Attempt(k, k, false))) == State(true, content[..k])
  {
    hide ParseRangeStart, OpenRange;
    ResumeStart(content, 0);
    assert Sent(content, State(true, []), Attempt(k, k, false)) == content[..k];
  }

  lemma ExpireStep(content: seq<byte>, k: nat)
    requires k <= |content|
    ensures Do(content, State(true, content[..k]), Expire) == State(false, content[..k])
  {}

  /** A file that does not expire, and a client that always receives what was written before the
      connection ends: the file is deleted only once the client holds the whole of it. */
  lemma DeletedOnlyWhenWhole(content: seq<byte>, steps: seq<Step>)
    requires |content| < INT64_LIMIT
    requires forall step | step in steps :: step.Try? && step.attempt.got >= step.attempt.reach
    ensures !Run(content, steps).present ==> Run(content, steps).held == content
  {
    hide Run, Sent;
    if !Run(content, steps).present {
      var n := SomeStepRemoves(content, steps);
      RemovedWholeIffGotAll(content, steps, n);
      SentWithinReach(content, Run(content, steps[..n]), steps[n].attempt);
    }
  }

  lemma SentWithinReach(content: seq<byte>, s: State, a: Attempt)
    ensures |Sent(content, s, a)| <= a.reach
  {}

  predicate NoExpiry(steps: seq<Step>, n: nat) {
    forall i | n <= i < |steps| :: steps[i].Try?
  }

  lemma NoExpiryMore(steps: seq<Step>, n: nat)
    requires n < |steps|
    ensures NoExpiry(steps, n) <==> NoExpiry(steps[..|steps| - 1], n) && steps[|steps| - 1].Try?
  {}

  lemma NoExpiryAtEnd(steps: seq<Step>, n: nat)
    requires n == |steps|
    ensures NoExpiry(steps, n) && steps[..n] == steps
  {}

  /** A client that holds the whole file while the server still keeps it (the copy reported an error on
      its last bytes) cannot make the server let go: every further attempt is refused, and only the
      expiry removes the file. */
  lemma WholeClientCannotRelease(content: seq<byte>, steps: seq<Step>, n: nat)
    requires 0 < |content| < INT64_LIMIT && n <= |steps| && Run(content, steps[..n]) == State(true, content)
    ensures StartOf(Header(|content|), |content|) == None
    ensures Run(content, steps).held == content
    ensures Run(content, steps).present <==> NoExpiry(steps, n)
    decreases |steps|
  {
    hide *;
    RefusedWhenWhole(content);
    if n == |steps| {
      NoExpiryAtEnd(steps, n);
    } else {
      var front, step := steps[..|steps| - 1], steps[|steps| - 1];
      assert front[..n] == steps[..n];
      WholeClientCannotRelease(content, front, n);
      RunStep(content, steps);
      WholeStaysWhole(content, Run(content, front).present, step);
      NoExpiryMore(steps, n);
    }
  }

  lemma RefusedWhenWhole(content: seq<byte>)
    requires 0 < |content| < INT64_LIMIT
    ensures StartOf(Header(|content|), |content|) == None
  {
    hide ParseRangeStart, OpenRange;
    ResumeStart(content, |content|);
  }

  lemma WholeStaysWhole(content: seq<byte>, present: bool, step: Step)
    requires 0 < |content| < INT64_LIMIT
    ensures Do(content, State(present, content), step) == State(present && step.Try?, content)
  {
    hide StartOf, Header, Written;
    RefusedWhenWhole(content);
    assert content + [] == content;
  }
}
