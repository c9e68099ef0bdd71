/** Registered type names. Both registries (registry.go and types/registry.go)
    accept a name iff the pattern `^[\w-]+(\.[\w-]+)*$` matches all of it,
    where `\w` is RE2's ASCII word class: letters, digits and `_`. The
    pattern is written out here as the scan a matcher for it performs, and
    `NamePatternCorrect` proves the scan accepts exactly the dot-joined,
    non-empty segments the pattern describes.
 */
module TypeNames {

  /** One character of the class `[\w-]`. */
  predicate IsNameChar(c: char)
  {
    ('a' <= c <= 'z') || ('A' <= c <= 'Z') || ('0' <= c <= '9') || c == '_' || c == '-'
  }

  /** Scans `n`; `segmentStart` holds at the beginning of the name and right
      after each `.`, where a name character must follow. */
  function Scan(n: string, segmentStart: bool): bool
  {
    if n == [] then !segmentStart
    else if IsNameChar(n[0]) then Scan(n[1..], false)
    else if n[0] == '.' then !segmentStart && Scan(n[1..], true)
    else false
  }

  /** `nameRegex.MatchString(n)`. */
  predicate MatchesNamePattern(n: string)
  {
    Scan(n, true)
  }

  /** A `[\w-]+` run. */
  predicate IsSegment(s: string)
  {
    |s| > 0 && forall i :: 0 <= i < |s| ==> IsNameChar(s[i])
  }

  /** The segments joined by dots. */
  function Join(segments: seq<string>): string
    requires |segments| > 0
  {
    if |segments| == 1 then segments[0]
    else segments[0] + "." + Join(segments[1..])
  }

  /** The language of the pattern: one or more segments joined by dots. */
  ghost predicate IsDottedName(n: string)
  {
    exists segments: seq<string> ::
      |segments| > 0 && (forall i :: 0 <= i < |segments| ==> IsSegment(segments[i])) &&
      Join(segments) == n
  }

  /** Index of the first `.` in `n`, or `|n|` when there is none. */
  function FirstDot(n: string): (k: nat)
    ensures k <= |n|
    ensures k < |n| ==> n[k] == '.'
  {
    if n == [] || n[0] == '.' then 0 else 1 + FirstDot(n[1..])
  }

  /** `strings.Split(n, ".")`. */
  function Split(n: string): (segments: seq<string>)
    ensures |segments| > 0
    decreases |n|
  {
    var k := FirstDot(n);
    if k == |n| then [n] else [n[..k]] + Split(n[k + 1..])
  }

  lemma {:induction false} SplitJoin(n: string)
    ensures Join(Split(n)) == n
    decreases |n|
  {
    var k := FirstDot(n);
    if k < |n| {
      var head, rest := n[..k], n[k + 1..];
      SplitJoin(rest);
      assert Split(n) == [head] + Split(rest);
      JoinCons(head, Split(rest));
      assert n == head + "." + rest;
    }
  }

  lemma JoinCons(head: string, tail: seq<string>)
    requires |tail| > 0
    ensures Join([head] + tail) == head + "." + Join(tail)
  {
    assert ([head] + tail)[1..] == tail;
  }

  /** A run of name characters followed by `rest` scans as `rest` does once the
      run has begun. */
  lemma {:induction false} ScanRun(w: string, rest: string, segmentStart: bool)
    requires forall i :: 0 <= i < |w| ==> IsNameChar(w[i])
    requires |w| > 0 || !segmentStart
    ensures Scan(w + rest, segmentStart) == Scan(rest, false)
    decreases |w|
  {
    if |w| > 0 {
      assert IsNameChar((w + rest)[0]) && (w + rest)[1..] == w[1..] + rest;
      ScanRun(w[1..], rest, false);
    } else {
      assert w + rest == rest;
    }
  }

  lemma {:induction false} ScanJoin(segments: seq<string>)
    requires |segments| > 0
    requires forall i :: 0 <= i < |segments| ==> IsSegment(segments[i])
    ensures Scan(Join(segments), true)
    decreases |segments|
  {
    if |segments| == 1 {
      ScanRun(segments[0], [], true);
      assert segments[0] + [] == segments[0];
    } else {
      var tail := Join(segments[1..]);
      ScanJoin(segments[1..]);
      assert Join(segments) == segments[0] + ("." + tail);
      ScanRun(segments[0], "." + tail, true);
      assert ("." + tail)[1..] == tail;
    }
  }

  /** What a successful scan from `segmentStart` says about the text up to the
      first dot and about what follows it. */
  lemma {:induction false} ScanUpToDot(n: string, segmentStart: bool)
    requires Scan(n, segmentStart)
    ensures var k := FirstDot(n);
      && (forall i :: 0 <= i < k ==> IsNameChar(n[i]))
      && (segmentStart ==> k > 0)
      && (k < |n| ==> Scan(n[k + 1..], true))
    decreases |n|
  {
    if n != [] && n[0] != '.' {
      ScanUpToDot(n[1..], false);
      if FirstDot(n) < |n| {
        assert n[1..][FirstDot(n[1..]) + 1..] == n[FirstDot(n) + 1..];
      }
    }
  }

  lemma {:induction false} ScanSplit(n: string)
    requires Scan(n, true)
    ensures forall i :: 0 <= i < |Split(n)| ==> IsSegment(Split(n)[i])
    decreases |n|
  {
    var k := FirstDot(n);
    ScanUpToDot(n, true);
    if k < |n| {
      ScanSplit(n[k + 1..]);
      assert Split(n) == [n[..k]] + Split(n[k + 1..]);
    }
  }

  /** The scan accepts exactly the names the pattern describes. */
  lemma NamePatternCorrect(n: string)
    ensures MatchesNamePattern(n) <==> IsDottedName(n)
  {
    if MatchesNamePattern(n) {
      ScanSplit(n);
      SplitJoin(n);
    }
    if IsDottedName(n) {
      var segments: seq<string> :|
        |segments| > 0 && (forall i :: 0 <= i < |segments| ==> IsSegment(segments[i])) &&
        Join(segments) == n;
      ScanJoin(segments);
    }
  }

  /** The pattern admits no empty name, no leading, trailing or doubled dot,
      and only name characters besides the dots. */
  lemma {:induction false} DottedNameShape(n: string)
    requires MatchesNamePattern(n)
    ensures |n| > 0 && n[0] != '.' && n[|n| - 1] != '.'
    ensures forall i :: 0 <= i < |n| ==> IsNameChar(n[i]) || n[i] == '.'
    ensures forall i :: 0 <= i < |n| - 1 && n[i] == '.' ==> n[i + 1] != '.'
  {
    ScanShape(n, true);
  }

  lemma {:induction false} ScanShape(n: string, segmentStart: bool)
    requires Scan(n, segmentStart)
    ensures segmentStart ==> |n| > 0 && n[0] != '.'
    ensures |n| > 0 ==> n[|n| - 1] != '.'
    ensures forall i :: 0 <= i < |n| ==> IsNameChar(n[i]) || n[i] == '.'
    ensures forall i :: 0 <= i < |n| - 1 && n[i] == '.' ==> n[i + 1] != '.'
    decreases |n|
  {
    if n != [] {
      var next := IsNameChar(n[0]) == false;
      ScanShape(n[1..], next);
      assert forall i :: 1 <= i < |n| ==> n[i] == n[1..][i - 1];
    }
  }
}
