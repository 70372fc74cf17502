/** The announcement markup rewrites. Every rewrite in the portal is a
    global regular-expression replacement of the shape
    `OPEN(.*?)CLOSE` -> `BEFORE$1AFTER` with literal delimiters; this module
    models that replacement as an explicit left-to-right scanner. */
module Markup {
  import opened Common
  import opened Text

  /** One rewrite: text between `open` and the nearest following `close` is
      wrapped in `before` ... `after`. */
  datatype Rule = Rule(open: string, close: string, before: string, after: string)
  {
    predicate Valid()
    {
      open != [] && close != [] && before != [] && after != []
    }

    /** The rule that turns the output back into the input. */
    function Inverse(): Rule
    {
      Rule(before, after, open, close)
    }
  }

  /** The lazy `(.*?)CLOSE` part of the match, tried from position `k`: the
      first position at which `close` starts, provided no line terminator
      comes before it (see `FindCloseFirst`). */
  function FindClose(s: string, k: nat, close: string): (r: Option<nat>)
    requires k <= |s| && close != []
    ensures r.Some? ==> k <= r.value <= |s| - |close|
    decreases |s| - k
  {
    if k == |s| then None
    else if close <= s[k..] then Some(k)
    else if IsLineTerminator(s[k]) then None
    else FindClose(s, k + 1, close)
  }

  /** `FindClose` finds the first closer at or after `k` unless a line
      terminator comes first, and finds nothing only in that case. */
  lemma {:induction false} FindCloseFirst(s: string, k: nat, close: string)
    requires k <= |s| && close != []
    ensures FindClose(s, k, close).Some? ==>
              && close <= s[FindClose(s, k, close).value..]
              && forall m :: k <= m < FindClose(s, k, close).value ==> !(close <= s[m..]) && !IsLineTerminator(s[m])
    ensures FindClose(s, k, close).None? ==>
              forall m :: k <= m <= |s| && close <= s[m..] ==> exists t :: k <= t < m && IsLineTerminator(s[t])
    decreases |s| - k
  {
    if k < |s| && !(close <= s[k..]) && !IsLineTerminator(s[k]) {
      FindCloseFirst(s, k + 1, close);
    }
  }

  /** `s.replace(/OPEN(.*?)CLOSE/g, 'BEFORE$1AFTER')`: at each position, a
      match is the opener followed by the shortest closer-terminated run;
      where there is none, one character is copied and the scan moves on.
      Compiled without the tail-call transform, which would drop the text
      wrapped in front of the recursive call. */
  function {:tailrecursion false} ReplaceAll(s: string, rule: Rule): (r: string)
    requires rule.Valid()
    ensures s != [] ==> r != []
    decreases |s|
  {
    if s == [] then []
    else if rule.open <= s then
      match FindClose(s, |rule.open|, rule.close)
      case Some(j) => rule.before + s[|rule.open|..j] + rule.after + ReplaceAll(s[j + |rule.close|..], rule)
      case None => [s[0]] + ReplaceAll(s[1..], rule)
    else [s[0]] + ReplaceAll(s[1..], rule)
  }

  /** A chain of `.replace` calls, applied in order. */
  function ApplyRules(s: string, rules: seq<Rule>): (r: string)
    requires forall k :: 0 <= k < |rules| ==> rules[k].Valid()
    ensures s != [] ==> r != []
    decreases |rules|
  {
    if rules == [] then s else ApplyRules(ReplaceAll(s, rules[0]), rules[1..])
  }

  /** The closer found by `FindClose` is exactly the first one, when no line
      terminator precedes it. */
  lemma FindCloseAt(s: string, k: nat, j: nat, close: string)
    requires close != [] && k <= j <= |s| - |close| && close <= s[j..]
    requires forall m :: k <= m < j ==> !(close <= s[m..]) && !IsLineTerminator(s[m])
    ensures FindClose(s, k, close) == Some(j)
  {
    FindCloseFirst(s, k, close);
  }

  /** Where the opener cannot start, the scan copies one character. */
  lemma CopyStep(s: string, rule: Rule)
    requires rule.Valid()
    requires s != [] && s[0] != rule.open[0]
    ensures ReplaceAll(s, rule) == [s[0]] + ReplaceAll(s[1..], rule)
  {
  }

  /** Where the opener does not start, or starts without a closer, the scan
      copies one character. */
  lemma NoMatchStep(s: string, rule: Rule)
    requires rule.Valid() && s != []
    requires !(rule.open <= s && FindClose(s, |rule.open|, rule.close).Some?)
    ensures ReplaceAll(s, rule) == [s[0]] + ReplaceAll(s[1..], rule)
  {
  }

  /** Where the opener starts and its closer is found, the run is wrapped. */
  lemma MatchStep(s: string, j: nat, rule: Rule)
    requires rule.Valid()
    requires rule.open <= s && FindClose(s, |rule.open|, rule.close) == Some(j)
    ensures ReplaceAll(s, rule)
         == rule.before + s[|rule.open|..j] + rule.after + ReplaceAll(s[j + |rule.close|..], rule)
  {
  }

  /** Text in which the opener never starts is copied unchanged. */
  lemma {:induction false} NoOpenerUnchanged(s: string, rule: Rule)
    requires rule.Valid()
    requires forall i :: 0 <= i < |s| ==> !(rule.open <= s[i..])
    ensures ReplaceAll(s, rule) == s
    decreases |s|
  {
    if s != [] {
      assert !(rule.open <= s[0..]);
      assert s[0..] == s;
      forall i | 0 <= i < |s[1..]| ensures !(rule.open <= s[1..][i..]) {
        assert s[1..][i..] == s[i + 1..];
      }
      NoOpenerUnchanged(s[1..], rule);
    }
  }

  /** In particular, text without the opener's first character is unchanged. */
  lemma NoMarkerUnchanged(s: string, rule: Rule)
    requires rule.Valid()
    requires rule.open[0] !in s
    ensures ReplaceAll(s, rule) == s
  {
    forall i | 0 <= i < |s| ensures !(rule.open <= s[i..]) {
      assert s[i..][0] == s[i];
    }
    NoOpenerUnchanged(s, rule);
  }

  /** A prefix without the opener's first character is copied, and the scan
      carries on with the rest. */
  lemma {:induction false} PlainPrefix(y: string, t: string, rule: Rule)
    requires rule.Valid()
    requires rule.open[0] !in y
    ensures ReplaceAll(y + t, rule) == y + ReplaceAll(t, rule)
    decreases |y|
  {
    if y != [] {
      assert (y + t)[0] == y[0];
      CopyStep(y + t, rule);
      assert (y + t)[1..] == y[1..] + t;
      PlainPrefix(y[1..], t, rule);
      assert y == [y[0]] + y[1..];
    } else {
      assert y + t == t;
    }
  }

  /** A complete tagged run is rewritten as a whole, the closer taken being
      the first one after the opener. */
  lemma MatchedRun(x: string, t: string, rule: Rule)
    requires rule.Valid()
    requires rule.close[0] !in x
    requires forall m :: 0 <= m < |x| ==> !IsLineTerminator(x[m])
    ensures ReplaceAll(rule.open + x + rule.close + t, rule)
         == rule.before + x + rule.after + ReplaceAll(t, rule)
  {
    var s := rule.open + x + rule.close + t;
    var i := |rule.open|;
    var j := i + |x|;
    assert s[..i] == rule.open;
    assert s[i..j] == x;
    assert s[j..] == rule.close + t;
    assert s[j + |rule.close|..] == t;
    forall m | i <= m < j ensures !(rule.close <= s[m..]) && !IsLineTerminator(s[m]) {
      assert s[m] == x[m - i];
      assert s[m..][0] == s[m];
    }
    FindCloseAt(s, i, j, rule.close);
    MatchStep(s, j, rule);
  }

  /** A line that is one tagged run becomes one wrapped run. */
  lemma MatchedAlone(x: string, rule: Rule)
    requires rule.Valid()
    requires rule.close[0] !in x
    requires forall m :: 0 <= m < |x| ==> !IsLineTerminator(x[m])
    ensures ReplaceAll(rule.open + x + rule.close, rule) == rule.before + x + rule.after
  {
    MatchedRun(x, [], rule);
    assert rule.open + x + rule.close + [] == rule.open + x + rule.close;
    assert rule.before + x + rule.after + [] == rule.before + x + rule.after;
  }

  /** Lazy matching: two tagged runs on one line become two wrapped runs,
      and the text between them is not swallowed into one. */
  lemma TwoRuns(x: string, y: string, z: string, rule: Rule)
    requires rule.Valid()
    requires rule.close[0] !in x && rule.close[0] !in z && rule.open[0] !in y
    requires forall m :: 0 <= m < |x| ==> !IsLineTerminator(x[m])
    requires forall m :: 0 <= m < |z| ==> !IsLineTerminator(z[m])
    ensures ReplaceAll(rule.open + x + rule.close + y + rule.open + z + rule.close, rule)
         == rule.before + x + rule.after + y + rule.before + z + rule.after
  {
    var second := rule.open + z + rule.close;
    var tail := y + second;
    Regroup7(rule.open, x, rule.close, y, z);
    MatchedRun(x, tail, rule);
    PlainPrefix(y, second, rule);
    MatchedRun(z, [], rule);
    var whole := rule.open + x + rule.close + y + rule.open + z + rule.close;
    Regroup(rule.before, x, rule.after, y, z, ReplaceAll(whole, rule), ReplaceAll(tail, rule), ReplaceAll(second, rule));
  }

  /** Sequence bookkeeping for `TwoRuns`: the text is a run followed by a tail. */
  lemma Regroup7(o: string, x: string, c: string, y: string, z: string)
    ensures o + x + c + y + o + z + c == o + x + c + (y + (o + z + c))
    ensures o + z + c == o + z + c + []
  {
  }

  /** Sequence bookkeeping for `TwoRuns`, kept apart from `ReplaceAll`. */
  lemma Regroup(b: string, x: string, a: string, y: string, z: string, rw: string, rt: string, rs: string)
    requires rw == b + x + a + rt && rt == y + rs && rs == b + z + a
    ensures rw == b + x + a + y + b + z + a
  {
  }

  /** An opener with no closer anywhere after it stays as it was. */
  lemma UnmatchedOpener(y: string, rule: Rule)
    requires rule.Valid()
    requires forall m :: 0 <= m <= |y| ==> !(rule.close <= y[m..])
    ensures ReplaceAll(rule.open + y, rule) == rule.open + y
  {
    NoCloserAfter(rule.open, y, rule.close);
    NoCloserUnchanged(rule.open + y, |rule.open|, rule);
  }

  /** Putting text in front of closer-free text adds no closer after it. */
  lemma NoCloserAfter(o: string, y: string, close: string)
    requires forall m :: 0 <= m <= |y| ==> !(close <= y[m..])
    ensures forall m :: |o| <= m <= |o + y| ==> !(close <= (o + y)[m..])
  {
    forall m | |o| <= m <= |o + y| ensures !(close <= (o + y)[m..]) {
      assert (o + y)[m..] == y[m - |o|..];
    }
  }

  /** Text in which no closer starts at or after `k`, for `k` at most one
      opener long, is copied unchanged: no opener in it finds a closer. */
  lemma {:induction false} NoCloserUnchanged(s: string, k: nat, rule: Rule)
    requires rule.Valid() && k <= |rule.open|
    requires forall m :: k <= m <= |s| ==> !(rule.close <= s[m..])
    ensures ReplaceAll(s, rule) == s
    decreases |s|
  {
    if s != [] {
      if rule.open <= s {
        NoCloserNone(s, |rule.open|, rule.close);
      }
      var k' := if k == 0 then 0 else k - 1;
      NoCloserTail(s, k, rule.close);
      NoCloserUnchanged(s[1..], k', rule);
      UnchangedStep(s, rule);
    }
  }

  /** Where nothing is wrapped at the first character and the rest is
      unchanged, the whole text is unchanged. */
  lemma UnchangedStep(s: string, rule: Rule)
    requires rule.Valid() && s != []
    requires !(rule.open <= s && FindClose(s, |rule.open|, rule.close).Some?)
    requires ReplaceAll(s[1..], rule) == s[1..]
    ensures ReplaceAll(s, rule) == s
  {
    NoMatchStep(s, rule);
    assert s == [s[0]] + s[1..];
  }

  /** Dropping the first character moves every closer-free position down by one. */
  lemma NoCloserTail(s: string, k: nat, close: string)
    requires s != []
    requires forall m :: k <= m <= |s| ==> !(close <= s[m..])
    ensures forall m :: (if k == 0 then 0 else k - 1) <= m <= |s[1..]| ==> !(close <= s[1..][m..])
  {
    forall m | (if k == 0 then 0 else k - 1) <= m <= |s[1..]| ensures !(close <= s[1..][m..]) {
      assert s[1..][m..] == s[m + 1..];
    }
  }

  /** A closer that starts nowhere from `k` on is not found from `k`. */
  lemma NoCloserNone(s: string, k: nat, close: string)
    requires k <= |s| && close != []
    requires forall m :: k <= m <= |s| ==> !(close <= s[m..])
    ensures FindClose(s, k, close).None?
  {
    FindCloseFirst(s, k, close);
  }

  /** Text without the closer's first character contains no closer. */
  lemma CloserAbsent(y: string, rule: Rule)
    requires rule.Valid() && rule.close[0] !in y
    ensures forall m :: 0 <= m <= |y| ==> !(rule.close <= y[m..])
  {
    forall m | 0 <= m <= |y| ensures !(rule.close <= y[m..]) {
      if m < |y| {
        assert y[m..][0] == y[m];
      }
    }
  }

  /** The rewrite loses nothing: on text that does not contain the first
      character of the inserted tags, the inverse rewrite restores it. */
  lemma {:induction false} RoundTrip(s: string, rule: Rule)
    requires rule.Valid()
    requires rule.before[0] == rule.after[0] && rule.before[0] !in s
    ensures ReplaceAll(ReplaceAll(s, rule), rule.Inverse()) == s
    decreases |s|, 1
  {
    if s == [] {
    } else if rule.open <= s && FindClose(s, |rule.open|, rule.close).Some? {
      RoundTripRun(s, rule);
    } else {
      RoundTripCopy(s, rule);
    }
  }

  /** `RoundTrip` where the scan wraps a run at the start of `s`. */
  lemma {:induction false} RoundTripRun(s: string, rule: Rule)
    requires rule.Valid()
    requires rule.before[0] == rule.after[0] && rule.before[0] !in s
    requires rule.open <= s && FindClose(s, |rule.open|, rule.close).Some?
    ensures ReplaceAll(ReplaceAll(s, rule), rule.Inverse()) == s
    decreases |s|, 0
  {
    var i := |rule.open|;
    var j := FindClose(s, i, rule.close).value;
    FindCloseFirst(s, i, rule.close);
    var x := s[i..j];
    var t := s[j + |rule.close|..];
    forall m | 0 <= m < |x| ensures x[m] != rule.after[0] && !IsLineTerminator(x[m]) {
      assert x[m] == s[i + m];
    }
    forall m | 0 <= m < |t| ensures t[m] != rule.before[0] {
      assert t[m] == s[j + |rule.close| + m];
    }
    RoundTrip(t, rule);
    MatchStep(s, j, rule);
    MatchedRun(x, ReplaceAll(t, rule), rule.Inverse());
    SplitAtRun(s, rule.open, rule.close, j);
  }

  /** `RoundTrip` where the scan copies the first character of `s`. */
  lemma {:induction false} RoundTripCopy(s: string, rule: Rule)
    requires rule.Valid()
    requires rule.before[0] == rule.after[0] && rule.before[0] !in s
    requires s != [] && !(rule.open <= s && FindClose(s, |rule.open|, rule.close).Some?)
    ensures ReplaceAll(ReplaceAll(s, rule), rule.Inverse()) == s
    decreases |s|, 0
  {
    forall m | 0 <= m < |s[1..]| ensures s[1..][m] != rule.before[0] {
      assert s[1..][m] == s[m + 1];
    }
    RoundTrip(s[1..], rule);
    NoMatchStep(s, rule);
    var rest := ReplaceAll(s[1..], rule);
    assert ([s[0]] + rest)[1..] == rest;
    CopyStep([s[0]] + rest, rule.Inverse());
    assert [s[0]] + s[1..] == s;
  }

  /** Sequence bookkeeping: `s` is its opener, run, closer and remainder. */
  lemma SplitAtRun(s: string, open: string, close: string, j: nat)
    requires open <= s && |open| <= j <= |s| && close <= s[j..]
    ensures s == open + s[|open|..j] + close + s[j + |close|..]
  {
    assert s == s[..|open|] + s[|open|..j] + s[j..j + |close|] + s[j + |close|..];
  }

  /** A chain of rewrites leaves alone text that contains none of the
      openers' first characters. */
  lemma {:induction false} ApplyRulesUnchanged(s: string, rules: seq<Rule>)
    requires forall k :: 0 <= k < |rules| ==> rules[k].Valid()
    requires forall k :: 0 <= k < |rules| ==> rules[k].Valid() && rules[k].open[0] !in s
    ensures ApplyRules(s, rules) == s
    decreases |rules|
  {
    if rules != [] {
      NoMarkerUnchanged(s, rules[0]);
      ApplyRulesUnchanged(s, rules[1..]);
    }
  }

  // The emphasis rewrites shared by the form preview and the service.

  /** `**x**` -> `<strong>x</strong>`. */
  const Strong := Rule("**", "**", "<strong>", "</strong>")
  /** `*x*` -> `<em>x</em>`. */
  const Emphasis := Rule("*", "*", "<em>", "</em>")
  /** `~~x~~` -> `<del>x</del>`. */
  const Strike := Rule("~~", "~~", "<del>", "</del>")
  /** `` `x` `` -> `<code>x</code>`. */
  const Code := Rule("`", "`", "<code>", "</code>")
}
