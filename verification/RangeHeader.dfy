/** The Range header of a resumed download: which headers are accepted, and from which byte. */
module RangeHeader {

  datatype Option<T> = None | Some(value: T)

  const INT64_LIMIT: int := 0x8000_0000_0000_0000
  const UNIT := "bytes="

  // ---------- strings ----------

  /** unicode.IsSpace */
  predicate IsSpace(c: char) {
    || c == ' ' || '\U{09}' <= c <= '\U{0D}' || c == '\U{85}' || c == '\U{A0}' || c == '\U{1680}'
    || '\U{2000}' <= c <= '\U{200A}' || c == '\U{2028}' || c == '\U{2029}' || c == '\U{202F}'
    || c == '\U{205F}' || c == '\U{3000}'
  }

  predicate AllSpace(s: string) {
    forall i | 0 <= i < |s| :: IsSpace(s[i])
  }

  function TrimLeft(s: string): string {
    if s != [] && IsSpace(s[0]) then TrimLeft(s[1..]) else s
  }

  function TrimRight(s: string): string {
    if s != [] && IsSpace(s[|s| - 1]) then TrimRight(s[..|s| - 1]) else s
  }

  function TrimSpace(s: string): string {
    TrimRight(TrimLeft(s))
  }

  /** strings.IndexByte */
  function IndexOf(s: string, c: char): (r: Option<nat>)
    ensures r.None? <==> c !in s
    ensures r.Some? ==> r.value < |s| && s[r.value] == c && c !in s[..r.value]
  {
    if s == [] then None
    else if s[0] == c then Some(0)
    else
      var rest := IndexOf(s[1..], c);
      assert s == [s[0]] + s[1..];
      assert rest.Some? ==> s[..rest.value + 1] == [s[0]] + s[1..][..rest.value];
      if rest.None? then None else Some(rest.value + 1)
  }

  // ---------- decimal numbers ----------

  predicate IsDigit(c: char) {
    '0' <= c <= '9'
  }

  predicate Digits(s: string) {
    s != [] && forall i | 0 <= i < |s| :: IsDigit(s[i])
  }

  function Value(s: string): nat
    requires forall i | 0 <= i < |s| :: IsDigit(s[i])
  {
    if s == [] then 0 else
      assert IsDigit(s[|s| - 1]);
      10 * Value(s[..|s| - 1]) + (s[|s| - 1] as int - '0' as int)
  }

  /** strconv.FormatInt of a non-negative number. */
  function Dec(n: nat): (s: string)
    ensures Digits(s) && Value(s) == n
  {
    var last := [('0' as int + n % 10) as char];
    if n < 10 then last else
      var front := Dec(n / 10);
      assert (front + last)[..|front|] == front;
      front + last
  }

  /** strconv.ParseInt(s, 10, 64) */
  function ParseInt(s: string): Option<int> {
    if s == [] then None
    else
      var body := if s[0] == '+' || s[0] == '-' then s[1..] else s;
      if !Digits(body) then None
      else
        var n: int := Value(body);
        if s[0] == '-' then if n > INT64_LIMIT then None else Some(-n)
        else if n >= INT64_LIMIT then None
        else Some(n)
  }

  // ---------- the header ----------

  function ParseRangeStart(header: string, size: int): Option<nat> {
    var h := TrimSpace(header);
    if !(UNIT <= h) then None
    else
      var spec := h[|UNIT|..];
      var dash := IndexOf(spec, '-');
      if ',' in spec || dash.None? then None
      else
        var start := ParseInt(TrimSpace(spec[..dash.value]));
        if start.None? || start.value < 0 || start.value >= size then None else Some(start.value)
  }

  // ---------- trimming ----------

  /** A string with no space at either end. */
  predicate Trimmed(s: string) {
    s != [] ==> !IsSpace(s[0]) && !IsSpace(s[|s| - 1])
  }

  lemma {:induction false} TrimLeftSplits(s: string)
    ensures var k := |s| - |TrimLeft(s)|; 0 <= k && TrimLeft(s) == s[k..] && AllSpace(s[..k])
    ensures TrimLeft(s) != [] ==> !IsSpace(TrimLeft(s)[0])
    decreases |s|
  {
    if s != [] && IsSpace(s[0]) {
      TrimLeftSplits(s[1..]);
      var k := |s| - |TrimLeft(s)|;
      assert s[..k] == [s[0]] + s[1..][..k - 1];
    }
  }

  lemma {:induction false} TrimRightSplits(s: string)
    ensures var k := |TrimRight(s)|; k <= |s| && TrimRight(s) == s[..k] && AllSpace(s[k..])
    ensures TrimRight(s) != [] ==> !IsSpace(TrimRight(s)[|TrimRight(s)| - 1])
    decreases |s|
  {
    if s != [] && IsSpace(s[|s| - 1]) {
      TrimRightSplits(s[..|s| - 1]);
      var k := |TrimRight(s)|;
      assert s[k..] == s[..|s| - 1][k..] + [s[|s| - 1]];
    }
  }

  lemma TrimSplits(s: string) returns (before: string, after: string)
    ensures s == before + TrimSpace(s) + after && AllSpace(before) && AllSpace(after)
    ensures Trimmed(TrimSpace(s))
  {
    hide TrimLeft, TrimRight;
    var l := TrimLeft(s);
    TrimLeftSplits(s);
    TrimRightSplits(l);
    before, after := s[..|s| - |l|], l[|TrimRight(l)|..];
  }

  lemma {:induction false} TrimLeftOf(before: string, core: string)
    requires AllSpace(before) && core != [] && !IsSpace(core[0])
    ensures TrimLeft(before + core) == core
    decreases |before|
  {
    if before == [] {
      assert before + core == core;
    } else {
      assert (before + core)[1..] == before[1..] + core;
      TrimLeftOf(before[1..], core);
    }
  }

  lemma {:induction false} TrimRightOf(core: string, after: string)
    requires AllSpace(after) && core != [] && !IsSpace(core[|core| - 1])
    ensures TrimRight(core + after) == core
    decreases |after|
  {
    if after == [] {
      assert core + after == core;
    } else {
      assert (core + after)[..|core| + |after| - 1] == core + after[..|after| - 1];
      TrimRightOf(core, after[..|after| - 1]);
    }
  }

  lemma TrimOf(before: string, core: string, after: string)
    requires AllSpace(before) && AllSpace(after) && Trimmed(core) && core != []
    ensures TrimSpace(before + core + after) == core
  {
    assert before + core + after == before + (core + after);
    TrimLeftOf(before, core + after);
    TrimRightOf(core, after);
  }

  // ---------- exactly which headers are accepted ----------

  datatype Parts =
    Parts(before: string, lead: string, plus: bool, digits: string, trail: string, rest: string, after: string)

  function Sign(plus: bool): string {
    if plus then "+" else ""
  }

  /** The text after "bytes=". */
  function Spec(p: Parts): string {
    p.lead + (Sign(p.plus) + p.digits) + p.trail + "-" + p.rest
  }

  /** header is "bytes=", an optionally signed number, a dash and anything without a comma, with space
      around the whole and around the number. */
  predicate Spells(p: Parts, header: string) {
    && header == p.before + (UNIT + Spec(p)) + p.after
    && AllSpace(p.before) && AllSpace(p.after) && AllSpace(p.lead) && AllSpace(p.trail)
    && Digits(p.digits) && Trimmed("-" + p.rest) && ',' !in p.rest
  }

  lemma NumberIsTrimmed(plus: bool, digits: string)
    requires Digits(digits)
    ensures Trimmed(Sign(plus) + digits) && Sign(plus) + digits != []
    ensures '-' !in Sign(plus) + digits && ',' !in Sign(plus) + digits
    ensures ParseInt(Sign(plus) + digits) == if Value(digits) >= INT64_LIMIT then None else Some(Value(digits))
  {
    var s := Sign(plus) + digits;
    assert IsDigit(digits[0]) && IsDigit(digits[|digits| - 1]);
    if plus {
      assert s[1..] == digits;
    } else {
      assert s == digits;
    }
  }

  lemma SpaceHasNoMarks(s: string)
    requires AllSpace(s)
    ensures '-' !in s && ',' !in s
  {}

  lemma {:induction false} FirstIndex(s: string, c: char, k: nat)
    requires k < |s| && s[k] == c && forall i | 0 <= i < k :: s[i] != c
    ensures IndexOf(s, c) == Some(k)
    decreases |s|
  {
    if k > 0 {
      FirstIndex(s[1..], c, k - 1);
    }
  }

  lemma FirstDash(head: string, rest: string)
    requires '-' !in head
    ensures IndexOf(head + "-" + rest, '-') == Some(|head|)
    ensures (head + "-" + rest)[..|head|] == head
  {
    assert forall i | 0 <= i < |head| :: head[i] in head;
    FirstIndex(head + "-" + rest, '-', |head|);
  }

  lemma NumberPart(p: Parts)
    requires AllSpace(p.lead) && AllSpace(p.trail) && Digits(p.digits) && ',' !in p.rest
    ensures ',' !in Spec(p) && IndexOf(Spec(p), '-').Some?
    ensures TrimSpace(Spec(p)[..IndexOf(Spec(p), '-').value]) == Sign(p.plus) + p.digits
  {
    var number := Sign(p.plus) + p.digits;
    var head := p.lead + number + p.trail;
    NumberIsTrimmed(p.plus, p.digits);
    SpaceHasNoMarks(p.lead);
    SpaceHasNoMarks(p.trail);
    assert Spec(p) == head + "-" + p.rest;
    FirstDash(head, p.rest);
    TrimOf(p.lead, number, p.trail);
  }

  lemma SpelledIsParsed(p: Parts, header: string, size: int)
    requires Spells(p, header) && size <= INT64_LIMIT
    ensures ParseRangeStart(header, size) == if Value(p.digits) < size then Some(Value(p.digits)) else None
  {
    hide TrimSpace, IndexOf, ParseInt, AllSpace, Digits, Trimmed, Spec;
    var h := UNIT + Spec(p);
    SpelledIsTrimmed(p);
    TrimOf(p.before, h, p.after);
    assert h[|UNIT|..] == Spec(p);
    NumberPart(p);
    NumberIsTrimmed(p.plus, p.digits);
  }

  lemma SpelledIsTrimmed(p: Parts)
    requires Trimmed("-" + p.rest)
    ensures Trimmed(UNIT + Spec(p))
  {
    var h, tail := UNIT + Spec(p), "-" + p.rest;
    assert h == UNIT + (p.lead + (Sign(p.plus) + p.digits) + p.trail) + tail;
    assert h[0] == 'b' && h[|h| - 1] == tail[|tail| - 1];
  }

  lemma ParsedNumber(s: string)
    requires ParseInt(s).Some? && '-' !in s
    ensures exists plus, digits :: Digits(digits) && s == Sign(plus) + digits
  {
    if s[0] == '+' {
      assert s == Sign(true) + s[1..];
    } else {
      assert s == Sign(false) + s;
    }
  }

  lemma SplitSpec(spec: string) returns (p: Parts)
    requires IndexOf(spec, '-').Some? && ',' !in spec
    requires ParseInt(TrimSpace(spec[..IndexOf(spec, '-').value])).Some?
    ensures spec == Spec(p) && AllSpace(p.lead) && AllSpace(p.trail) && Digits(p.digits) && ',' !in p.rest
    ensures p.before == p.after == ""
  {
    hide TrimSpace, ParseInt, IndexOf, AllSpace, Digits, Trimmed;
    var d := IndexOf(spec, '-').value;
    var lead, trail := TrimSplits(spec[..d]);
    var number := TrimSpace(spec[..d]);
    Within(lead, number, trail, spec[..d]);
    ParsedNumber(number);
    var plus, digits :| Digits(digits) && number == Sign(plus) + digits;
    p := Parts("", lead, plus, digits, trail, spec[d + 1..], "");
    CutAt(spec, d);
  }

  lemma CutAt(s: string, d: nat)
    requires d < |s|
    ensures s == s[..d] + [s[d]] + s[d + 1..]
    ensures ',' !in s ==> ',' !in s[d + 1..]
  {
    assert forall i | d < i < |s| :: s[d + 1..][i - d - 1] == s[i];
  }

  lemma Within(lead: string, number: string, trail: string, s: string)
    requires s == lead + number + trail && '-' !in s
    ensures '-' !in number
  {
    assert forall i | 0 <= i < |number| :: number[i] == s[|lead| + i];
  }

  lemma ParsedIsSpelled(header: string, size: int) returns (p: Parts)
    requires ParseRangeStart(header, size).Some?
    ensures Spells(p, header)
  {
    hide TrimSpace, ParseInt, IsSpace;
    var h := TrimSpace(header);
    var before, after := TrimSplits(header);
    p := SplitSpec(h[|UNIT|..]);
    p := p.(before := before, after := after);
    assert h == UNIT + Spec(p);
    LastOf(h, p);
  }

  lemma LastOf(h: string, p: Parts)
    requires h == UNIT + Spec(p) && Trimmed(h)
    ensures Trimmed("-" + p.rest)
  {
    var tail := "-" + p.rest;
    assert Spec(p) == (p.lead + (Sign(p.plus) + p.digits) + p.trail) + tail;
    assert h[|h| - 1] == tail[|tail| - 1];
  }

  /** For every header and size: a download resumes from byte k exactly when the header has the one
      accepted spelling, its number is k, and k lies inside the file. What follows the dash is ignored:
      an end position is accepted but not honoured. */
  lemma ResumesFromIffSpelled(header: string, size: int, k: nat)
    requires size < INT64_LIMIT
    ensures ParseRangeStart(header, size) == Some(k) <==>
            k < size && exists p :: Spells(p, header) && Value(p.digits) == k
  {
    hide ParseRangeStart;
    if ParseRangeStart(header, size) == Some(k) {
      var p := ParsedIsSpelled(header, size);
      SpelledIsParsed(p, header, size);
    }
    if p :| Spells(p, header) && Value(p.digits) == k && k < size {
      SpelledIsParsed(p, header, size);
    }
  }

  /** The header a resuming client sends. */
  function OpenRange(k: nat): string {
    UNIT + Dec(k) + "-"
  }

  /** The open-ended form of section 14.1.2 of RFC 9110: accepted exactly for positions in the file. */
  lemma OpenRangeRoundTrip(k: nat, size: int)
    requires size < INT64_LIMIT
    ensures ParseRangeStart(OpenRange(k), size) == if k < size then Some(k) else None
  {
    var p := Parts("", "", false, Dec(k), "", "", "");
    assert OpenRange(k) == p.before + (UNIT + Spec(p)) + p.after;
    assert Spells(p, OpenRange(k));
    SpelledIsParsed(p, OpenRange(k), size);
  }
}
