/** Glob host patterns with greedy captures, `src/config/host_pattern.rs`. */
module HostPatterns {
  import opened Bytes

  const MAX_HOST_CHARS := 255

  predicate IsWild(c: char) {
    c == '*' || c == '?'
  }

  function WildcardCount(p: string): nat {
    if p == [] then 0 else (if IsWild(p[0]) then 1 else 0) + WildcardCount(p[1..])
  }

  // ----- what it means to match -----

  /** One capture per wildcard, in order; a `?` captures exactly one character. */
  ghost predicate ValidCaptures(p: string, caps: seq<string>) {
    if p == [] then caps == []
    else if IsWild(p[0]) then caps != [] && (p[0] == '?' ==> |caps[0]| == 1) && ValidCaptures(p[1..], caps[1..])
    else ValidCaptures(p[1..], caps)
  }

  /** The pattern with its wildcards replaced, left to right, by `caps`. */
  function Fill(p: string, caps: seq<string>): string {
    if p == [] then []
    else if !IsWild(p[0]) then [p[0]] + Fill(p[1..], caps)
    else if caps == [] then []
    else caps[0] + Fill(p[1..], caps[1..])
  }

  /** `caps` is a way to read `t` as an instance of `p`. */
  ghost predicate Explains(p: string, caps: seq<string>, t: string) {
    ValidCaptures(p, caps) && Fill(p, caps) == t
  }

  function Lengths(caps: seq<string>): (lens: seq<nat>)
    ensures |lens| == |caps|
  {
    if caps == [] then [] else [|caps[0]|] + Lengths(caps[1..])
  }

  /** Lexicographic order on length vectors of the same size. */
  predicate LexAtLeast(a: seq<nat>, b: seq<nat>) {
    |a| == |b| && (a == [] || a[0] > b[0] || (a[0] == b[0] && LexAtLeast(a[1..], b[1..])))
  }

  // ----- the recurrence behind the table -----

  predicate Glob(p: string, t: string)
    decreases |p|, |t|
  {
    if p == [] then t == []
    else if p[0] == '*' then Glob(p[1..], t) || (t != [] && Glob(p, t[1..]))
    else if p[0] == '?' then t != [] && Glob(p[1..], t[1..])
    else t != [] && t[0] == p[0] && Glob(p[1..], t[1..])
  }

  /** The largest `k` up to `from` at which the remaining pattern takes over, 0 if there is none. */
  function LastSplit(p: string, t: string, from: nat): (k: nat)
    requires from <= |t|
    ensures k <= from
  {
    if from == 0 || Glob(p, t[from..]) then from else LastSplit(p, t, from - 1)
  }

  lemma {:induction false} LastSplitMeaning(p: string, t: string, from: nat, k: nat)
    requires k <= from <= |t| && Glob(p, t[k..])
    ensures k <= LastSplit(p, t, from) && Glob(p, t[LastSplit(p, t, from)..])
  {
    if k < from && !Glob(p, t[from..]) {
      LastSplitMeaning(p, t, from - 1, k);
    }
  }

  /** A `*` matches exactly when the rest of the pattern matches some suffix of the text. */
  lemma {:induction false} StarSplits(p: string, t: string)
    requires p != [] && p[0] == '*' && Glob(p, t)
    ensures Glob(p[1..], t[LastSplit(p[1..], t, |t|)..])
    decreases |t|
  {
    if Glob(p[1..], t) {
      assert t[0..] == t;
      LastSplitMeaning(p[1..], t, |t|, 0);
    } else {
      var u := t[1..];
      StarSplits(p, u);
      var k := LastSplit(p[1..], u, |u|);
      assert u[k..] == t[k + 1..];
      LastSplitMeaning(p[1..], t, |t|, k + 1);
    }
  }

  lemma {:induction false} StarTakes(p: string, t: string, k: nat)
    requires p != [] && p[0] == '*' && k <= |t| && Glob(p[1..], t[k..])
    ensures Glob(p, t)
    decreases k
  {
    if k == 0 {
      assert t[0..] == t;
    } else {
      assert t[1..][k - 1..] == t[k..];
      StarTakes(p, t[1..], k - 1);
    }
  }

  /** Captures of a match when every `*`, from the left, takes as much as it can. */
  function GreedyCaptures(p: string, t: string): seq<string>
    requires Glob(p, t)
  {
    if p == [] then []
    else if p[0] == '*' then
      var k := LastSplit(p[1..], t, |t|);
      StarSplits(p, t);
      [t[..k]] + GreedyCaptures(p[1..], t[k..])
    else if p[0] == '?' then [t[..1]] + GreedyCaptures(p[1..], t[1..])
    else GreedyCaptures(p[1..], t[1..])
  }

  /** The greedy captures are a reading of the text, one per wildcard. */
  lemma {:induction false} GreedyExplains(p: string, t: string)
    requires Glob(p, t)
    ensures Explains(p, GreedyCaptures(p, t), t) && |GreedyCaptures(p, t)| == WildcardCount(p)
  {
    if p != [] {
      var k := if p[0] == '*' then LastSplit(p[1..], t, |t|) else 1;
      StarSplitsIf(p, t);
      GreedyExplains(p[1..], t[k..]);
      assert t[..k] + t[k..] == t;
      if !IsWild(p[0]) {
        assert t[..1] == [p[0]];
      } else {
        assert GreedyCaptures(p, t)[1..] == GreedyCaptures(p[1..], t[k..]);
      }
    }
  }

  lemma StarSplitsIf(p: string, t: string)
    requires p != [] && Glob(p, t)
    ensures p[0] == '*' ==> Glob(p[1..], t[LastSplit(p[1..], t, |t|)..])
  {
    if p[0] == '*' {
      StarSplits(p, t);
    }
  }

  /** The first capture of a pattern that starts with a wildcard, and the rest. */
  lemma GreedyHead(p: string, t: string)
    requires p != [] && IsWild(p[0]) && Glob(p, t)
    ensures var k := if p[0] == '*' then LastSplit(p[1..], t, |t|) else 1;
            && k <= |t| && Glob(p[1..], t[k..])
            && GreedyCaptures(p, t) == [t[..k]] + GreedyCaptures(p[1..], t[k..])
            && Lengths(GreedyCaptures(p, t)) == [k] + Lengths(GreedyCaptures(p[1..], t[k..]))
  {
    StarSplitsIf(p, t);
    var k := if p[0] == '*' then LastSplit(p[1..], t, |t|) else 1;
    var g := GreedyCaptures(p, t);
    assert g == [t[..k]] + GreedyCaptures(p[1..], t[k..]);
    assert g[1..] == GreedyCaptures(p[1..], t[k..]);
  }

  /** A pattern matches if its first wildcard can take `n` characters and the rest matches on. */
  lemma WildTakes(p: string, t: string, n: nat)
    requires p != [] && IsWild(p[0]) && n <= |t| && (p[0] == '?' ==> n == 1) && Glob(p[1..], t[n..])
    ensures Glob(p, t)
    ensures p[0] == '*' ==> n <= LastSplit(p[1..], t, |t|)
  {
    if p[0] == '*' {
      StarTakes(p, t, n);
      LastSplitMeaning(p[1..], t, |t|, n);
    }
  }

  /** Any reading of the text is no longer, lexicographically, than the greedy one. */
  lemma {:induction false} GreedyIsGreatest(p: string, t: string, caps: seq<string>)
    requires Explains(p, caps, t)
    ensures Glob(p, t) && LexAtLeast(Lengths(GreedyCaptures(p, t)), Lengths(caps))
    decreases |p|
  {
    if p != [] {
      if !IsWild(p[0]) {
        assert t[1..] == Fill(p[1..], caps);
        GreedyIsGreatest(p[1..], t[1..], caps);
      } else {
        GreatestAfterWild(p, t, caps);
      }
    }
  }

  lemma {:induction false} GreatestAfterWild(p: string, t: string, caps: seq<string>)
    requires p != [] && IsWild(p[0]) && Explains(p, caps, t)
    ensures Glob(p, t) && LexAtLeast(Lengths(GreedyCaptures(p, t)), Lengths(caps))
    decreases |p|, 0
  {
    hide Glob, GreedyCaptures, LastSplit;
    var n := |caps[0]|;
    assert t[n..] == Fill(p[1..], caps[1..]);
    GreedyIsGreatest(p[1..], t[n..], caps[1..]);
    WildTakes(p, t, n);
    GreedyHead(p, t);
    var lens := Lengths(GreedyCaptures(p, t));
    assert Lengths(caps)[1..] == Lengths(caps[1..]) && Lengths(caps)[0] == n;
    CaptureCount(p, caps);
    GreedyExplains(p, t);
    CaptureCount(p, GreedyCaptures(p, t));
    if lens[0] == n {
      assert lens[1..] == Lengths(GreedyCaptures(p[1..], t[n..]));
    }
  }

  lemma {:induction false} CaptureCount(p: string, caps: seq<string>)
    requires ValidCaptures(p, caps)
    ensures |caps| == WildcardCount(p)
  {
    if p != [] {
      CaptureCount(p[1..], if IsWild(p[0]) then caps[1..] else caps);
    }
  }

  /** The table's recurrence decides exactly the declarative relation. */
  lemma GlobIffExplained(p: string, t: string)
    ensures Glob(p, t) <==> exists caps :: Explains(p, caps, t)
  {
    if Glob(p, t) {
      GreedyExplains(p, t);
    }
    forall caps | Explains(p, caps, t) ensures Glob(p, t) {
      GreedyIsGreatest(p, t, caps);
    }
  }

  // ----- cutting the captures out of the text as received -----

  /**
   * Captures of the given lengths cut from `text`, the pattern starting at `j`; None when a
   * capture would reach past the end of `text`, where the slicing panics.
   */
  function Cut(p: string, lens: seq<nat>, text: string, j: nat): Option<seq<string>> {
    if p == [] then Some([])
    else if !IsWild(p[0]) then Cut(p[1..], lens, text, j + 1)
    else if lens == [] || j + lens[0] > |text| then None
    else
      match Cut(p[1..], lens[1..], text, j + lens[0])
      case None => None
      case Some(caps) => Some([text[j..j + lens[0]]] + caps)
  }

  /** The greedy captures, measured in the lower-cased name `t` and cut from `text` at `j`. */
  function GreedyCut(p: string, t: string, text: string, j: nat): Option<seq<string>>
    requires Glob(p, t)
  {
    Cut(p, Lengths(GreedyCaptures(p, t)), text, j)
  }

  datatype HostPattern = HostPattern(raw: string, pattern: string, wildcardCount: nat)

  function TrimDots(s: string): string {
    if s != [] && s[|s| - 1] == '.' then TrimDots(s[..|s| - 1]) else s
  }

  /** `t` is `s` less all of its trailing dots. */
  ghost predicate Trimmed(s: string, t: string) {
    && t <= s && (forall k :: |t| <= k < |s| ==> s[k] == '.')
    && (t == [] || t[|t| - 1] != '.')
  }

  /** That determines it, and is what trimming gives. */
  lemma {:induction false} TrimDotsIs(s: string, t: string)
    requires Trimmed(s, t)
    ensures TrimDots(s) == t
    decreases |s|
  {
    if s == t {
      assert s == t[..|t|];
    } else {
      assert s[|s| - 1] == '.';
      TrimDotsIs(s[..|s| - 1], t);
    }
  }

  lemma {:induction false} TrimDotsTrims(s: string)
    ensures Trimmed(s, TrimDots(s))
  {
    if s != [] && s[|s| - 1] == '.' {
      TrimDotsTrims(s[..|s| - 1]);
    }
  }

  function NewPattern(raw: string, lower: string -> string): HostPattern {
    var pattern := lower(TrimDots(raw));
    HostPattern(raw, pattern, WildcardCount(pattern))
  }

  datatype MatchOutcome = NoMatch | Matched(captures: seq<string>) | SlicePanic

  /** What `match_host` answers, said without the table. */
  function MatchSpec(p: string, text: string, low: string): MatchOutcome {
    if |text| > MAX_HOST_CHARS || !Glob(p, low) then NoMatch
    else
      match GreedyCut(p, low, text, 0)
      case None => SlicePanic
      case Some(caps) => Matched(caps)
  }

  /** Entry (i, j) tells whether pattern suffix i matches text suffix j. */
  ghost predicate TableOf(dp: array2<bool>, p: string, low: string)
    reads dp
  {
    && dp.Length0 == |p| + 1 && dp.Length1 == |low| + 1
    && forall a, b :: 0 <= a <= |p| && 0 <= b <= |low| ==> dp[a, b] == Glob(p[a..], low[b..])
  }

  /** Fills the table of `match_host` from the last pattern character and text position back. */
  method FillTable(p: string, low: string) returns (dp: array2<bool>)
    ensures fresh(dp) && TableOf(dp, p, low)
  {
    hide Glob;
    var n, m := |p|, |low|;
    dp := new bool[n + 1, m + 1]((i, j) => false);
    dp[n, m] := true;
    GlobLastRow(p, low);
    var i := n;
    while i > 0
      invariant 0 <= i <= n
      invariant forall a, b :: i <= a <= n && 0 <= b <= m ==> dp[a, b] == Glob(p[a..], low[b..])
    {
      i := i - 1;
      var pc := p[i];
      var j := m + 1;
      while j > 0
        invariant 0 <= j <= m + 1
        invariant forall a, b :: i < a <= n && 0 <= b <= m ==> dp[a, b] == Glob(p[a..], low[b..])
        invariant forall b :: j <= b <= m ==> dp[i, b] == Glob(p[i..], low[b..])
      {
        j := j - 1;
        GlobRow(p, low, i, j);
        dp[i, j] :=
          if pc == '*' then dp[i + 1, j] || (j < m && dp[i, j + 1])
          else if pc == '?' then j < m && dp[i + 1, j + 1]
          else j < m && low[j] == pc && dp[i + 1, j + 1];
      }
    }
  }

  lemma GlobLastRow(p: string, low: string)
    ensures forall b :: 0 <= b <= |low| ==> Glob(p[|p|..], low[b..]) == (b == |low|)
  {
  }

  /** One entry of the table in terms of its neighbours. */
  lemma GlobRow(p: string, low: string, i: nat, j: nat)
    requires i < |p| && j <= |low|
    ensures Glob(p[i..], low[j..]) ==
            if p[i] == '*' then Glob(p[i + 1..], low[j..]) || (j < |low| && Glob(p[i..], low[j + 1..]))
            else if p[i] == '?' then j < |low| && Glob(p[i + 1..], low[j + 1..])
            else j < |low| && low[j] == p[i] && Glob(p[i + 1..], low[j + 1..])
  {
  }

  /** The inner scan: the last column from `j` on where the next pattern row still matches. */
  method LongestSpan(p: string, low: string, dp: array2<bool>, i: nat, j: nat) returns (best: nat)
    requires i < |p| && j <= |low| && p[i] == '*' && Glob(p[i..], low[j..])
    requires TableOf(dp, p, low)
    ensures best == j + LastSplit(p[i + 1..], low[j..], |low| - j)
  {
    hide Glob, LastSplit;
    best := j;
    var m := |low|;
    ghost var q, t := p[i + 1..], low[j..];
    assert p[i..][1..] == q;
    StarSplits(p[i..], t);
    ghost var last := LastSplit(q, t, m - j);
    var k := j;
    while k <= m
      invariant j <= k <= m + 1 && j <= best <= m
      invariant j + last < k ==> best == j + last
    {
      assert t[k - j..] == low[k..];
      if dp[i + 1, k] {
        LastSplitMeaning(q, t, m - j, k - j);
        best := k;
      } else {
        assert k != j + last;
      }
      k := k + 1;
    }
  }

  /** What one character of the pattern contributes, with `caps` cut already. */
  lemma WalkStep(p: string, low: string, text: string, i: nat, j: nat, caps: seq<string>)
    requires i < |p| && j <= |low| && Glob(p[i..], low[j..])
    ensures var end := j + if p[i] == '*' then LastSplit(p[i + 1..], low[j..], |low| - j) else 1;
            && end <= |low| && Glob(p[i + 1..], low[end..])
            && var rest := GreedyCut(p[i + 1..], low[end..], text, end);
               Prepend(caps, GreedyCut(p[i..], low[j..], text, j)) ==
               if !IsWild(p[i]) then Prepend(caps, rest)
               else if end > |text| then None
               else Prepend(caps + [text[j..end]], rest)
  {
    hide Glob, LastSplit, GreedyCut;
    var q, t := p[i..], low[j..];
    GreedyStep(q, t, text, j);
    assert q[0] == p[i] && q[1..] == p[i + 1..] && |t| == |low| - j;
    var k := if p[i] == '*' then LastSplit(q[1..], t, |t|) else 1;
    assert t[k..] == low[j + k..];
    if IsWild(p[i]) && j + k <= |text| {
      PrependOne(caps, text[j..j + k], GreedyCut(q[1..], t[k..], text, j + k));
    }
  }

  /** The walk along the pattern that cuts the captures out. */
  method WalkCaptures(p: string, low: string, text: string, dp: array2<bool>) returns (captures: Option<seq<string>>)
    requires TableOf(dp, p, low) && Glob(p, low)
    ensures captures == GreedyCut(p, low, text, 0)
  {
    hide Glob, LastSplit, GreedyCut, TableOf, Prepend;
    var caps: seq<string> := [];
    var i, j := 0, 0;
    assert p[0..] == p && low[0..] == low;
    ghost var whole := GreedyCut(p, low, text, 0);
    PrependNone(whole);
    while i < |p|
      invariant 0 <= i <= |p| && 0 <= j <= |low| && Glob(p[i..], low[j..])
      invariant whole == Prepend(caps, GreedyCut(p[i..], low[j..], text, j))
    {
      WalkStep(p, low, text, i, j, caps);
      var end := j + 1;
      if p[i] == '*' {
        end := LongestSpan(p, low, dp, i, j);
      }
      if IsWild(p[i]) {
        if end > |text| {
          return None;
        }
        caps := caps + [text[j..end]];
      }
      j, i := end, i + 1;
    }
    assert p[i..] == [];
    CutNothing(low[j..], text, j);
    PrependNothing(caps);
    captures := Some(caps);
  }

  /**
   * `match_host`, with the hostname's lower-casing left open: no answer unless the lower-cased
   * name is an instance of the pattern, otherwise the greedy captures cut from the name itself.
   */
  method MatchHost(hp: HostPattern, hostname: string, lower: string -> string) returns (r: MatchOutcome)
    ensures forall text :: Trimmed(hostname, text) ==> r == MatchSpec(hp.pattern, text, lower(text))
  {
    hide Glob, GreedyCaptures, Lengths, Cut, TrimDots;
    var text := TrimDots(hostname);
    forall t | Trimmed(hostname, t) ensures t == text {
      TrimDotsIs(hostname, t);
    }
    if |text| > MAX_HOST_CHARS {
      return NoMatch;
    }
    var low, p := lower(text), hp.pattern;
    var dp := FillTable(p, low);
    assert p[0..] == p && low[0..] == low;
    if !dp[0, 0] {
      return NoMatch;
    }
    var captures := WalkCaptures(p, low, text, dp);
    r := if captures.None? then SlicePanic else Matched(captures.value);
  }

  lemma CutNothing(t: string, text: string, j: nat)
    requires Glob([], t)
    ensures GreedyCut([], t, text, j) == Some([])
  {
  }

  function Prepend(caps: seq<string>, rest: Option<seq<string>>): Option<seq<string>> {
    if rest.None? then None else Some(caps + rest.value)
  }

  lemma PrependNothing(caps: seq<string>)
    ensures Prepend(caps, Some([])) == Some(caps)
  {
    assert caps + [] == caps;
  }

  lemma PrependNone(rest: Option<seq<string>>)
    ensures Prepend([], rest) == rest
  {
    if rest.Some? {
      assert [] + rest.value == rest.value;
    }
  }

  lemma PrependOne(caps: seq<string>, c: string, rest: Option<seq<string>>)
    ensures Prepend(caps + [c], rest) == Prepend(caps, Prepend([c], rest))
  {
    if rest.Some? {
      assert caps + [c] + rest.value == caps + ([c] + rest.value);
    }
  }

  lemma GreedyTail(p: string, t: string)
    requires p != [] && !IsWild(p[0]) && Glob(p, t)
    ensures t != [] && Glob(p[1..], t[1..]) && GreedyCaptures(p, t) == GreedyCaptures(p[1..], t[1..])
  {
  }

  /** How the captures of a pattern come from those of the pattern without its first character. */
  lemma GreedyStep(p: string, t: string, text: string, j: nat)
    requires p != [] && Glob(p, t)
    ensures p[0] != '*' ==> t != []
    ensures var k := if p[0] == '*' then LastSplit(p[1..], t, |t|) else 1;
            && Glob(p[1..], t[k..])
            && var rest := GreedyCut(p[1..], t[k..], text, j + k);
               GreedyCut(p, t, text, j) ==
               if !IsWild(p[0]) then rest
               else if j + k > |text| then None
               else Prepend([text[j..j + k]], rest)
  {
    hide Glob, LastSplit, GreedyCaptures, Lengths;
    if IsWild(p[0]) {
      GreedyHead(p, t);
      var k := if p[0] == '*' then LastSplit(p[1..], t, |t|) else 1;
      var lens := Lengths(GreedyCaptures(p, t));
      assert lens[0] == k && lens[1..] == Lengths(GreedyCaptures(p[1..], t[k..]));
    } else {
      GreedyTail(p, t);
    }
  }

  // ----- what the answers promise -----

  /** With as many characters in the lower-cased name as in the name, no slice is out of range. */
  lemma {:induction false} CutSucceeds(p: string, caps: seq<string>, t: string, text: string, j: nat)
    requires Explains(p, caps, t) && j + |t| <= |text|
    ensures Cut(p, Lengths(caps), text, j).Some?
    ensures var cut := Cut(p, Lengths(caps), text, j).value;
            Lengths(cut) == Lengths(caps) && ValidCaptures(p, cut)
    decreases |p|
  {
    if p != [] {
      if !IsWild(p[0]) {
        CutSucceeds(p[1..], caps, Fill(p[1..], caps), text, j + 1);
      } else {
        assert Lengths(caps)[1..] == Lengths(caps[1..]);
        CutSucceeds(p[1..], caps[1..], Fill(p[1..], caps[1..]), text, j + |caps[0]|);
        var rest := Cut(p[1..], Lengths(caps[1..]), text, j + |caps[0]|).value;
        var cut := Cut(p, Lengths(caps), text, j).value;
        assert cut == [text[j..j + |caps[0]|]] + rest && cut[1..] == rest;
      }
    }
  }

  function Lowered(c: char -> char, s: string): (r: string)
    ensures |r| == |s|
  {
    if s == [] then [] else [c(s[0])] + Lowered(c, s[1..])
  }

  function LoweredAll(c: char -> char, caps: seq<string>): seq<string> {
    if caps == [] then [] else [Lowered(c, caps[0])] + LoweredAll(c, caps[1..])
  }

  lemma {:induction false} LoweredAt(c: char -> char, s: string, k: nat)
    requires k < |s|
    ensures Lowered(c, s)[k] == c(s[k])
    decreases k
  {
    if k > 0 {
      LoweredAt(c, s[1..], k - 1);
    }
  }

  lemma LoweredSlice(c: char -> char, s: string, i: nat, j: nat)
    requires i <= j <= |s|
    ensures Lowered(c, s)[i..j] == Lowered(c, s[i..j])
  {
    hide Lowered;
    forall k | 0 <= k < j - i ensures Lowered(c, s)[i..j][k] == Lowered(c, s[i..j])[k] {
      LoweredAt(c, s, i + k);
      LoweredAt(c, s[i..j], k);
    }
  }

  lemma CutWild(p: string, caps: seq<string>, text: string, j: nat)
    requires p != [] && IsWild(p[0]) && caps != [] && Cut(p, Lengths(caps), text, j).Some?
    ensures j + |caps[0]| <= |text| && Cut(p[1..], Lengths(caps[1..]), text, j + |caps[0]|).Some?
    ensures Cut(p, Lengths(caps), text, j).value ==
            [text[j..j + |caps[0]|]] + Cut(p[1..], Lengths(caps[1..]), text, j + |caps[0]|).value
  {
    assert Lengths(caps)[1..] == Lengths(caps[1..]);
  }

  lemma LoweredCons(c: char -> char, cap: string, caps: seq<string>)
    ensures LoweredAll(c, [cap] + caps) == [Lowered(c, cap)] + LoweredAll(c, caps)
  {
    assert ([cap] + caps)[1..] == caps;
  }

  /** Captures cut from the name are the greedy captures in the name's own letter case. */
  lemma {:induction false} CutIsGreedy(c: char -> char, p: string, caps: seq<string>, t: string, text: string, j: nat)
    requires Explains(p, caps, t) && j + |t| == |text| && t == Lowered(c, text)[j..]
    requires Cut(p, Lengths(caps), text, j).Some?
    ensures LoweredAll(c, Cut(p, Lengths(caps), text, j).value) == caps
    decreases |p|
  {
    hide Lowered, Lengths;
    if p != [] {
      if !IsWild(p[0]) {
        assert t[1..] == Lowered(c, text)[j + 1..];
        CutIsGreedy(c, p[1..], caps, t[1..], text, j + 1);
      } else {
        var cap, more := caps[0], caps[1..];
        var k := |cap|;
        CutWild(p, caps, text, j);
        hide Cut, LoweredAll;
        assert t[k..] == Fill(p[1..], more) && t[k..] == Lowered(c, text)[j + k..];
        CutIsGreedy(c, p[1..], more, t[k..], text, j + k);
        PrefixOfSuffix(Lowered(c, text), j, cap);
        LoweredSlice(c, text, j, j + k);
        LoweredCons(c, text[j..j + k], Cut(p[1..], Lengths(more), text, j + k).value);
        assert [cap] + more == caps;
      }
    }
  }

  lemma PrefixOfSuffix(s: string, j: nat, cap: string)
    requires j <= |s| && cap <= s[j..]
    ensures s[j..j + |cap|] == cap
  {
  }

  /**
   * For a lower-casing that works character by character: a name of up to 255 characters
   * matches exactly when it can be read as an instance of the pattern; the captures then number
   * `wildcard_count`, put back into the pattern they give the name (up to case), and no other
   * reading has a lexicographically greater vector of capture lengths.
   */
  lemma MatchHostCorrect(c: char -> char, p: string, text: string)
    requires |text| <= 255
    ensures var r := MatchSpec(p, text, Lowered(c, text));
            && (r.Matched? <==> exists caps :: Explains(p, caps, Lowered(c, text)))
            && (r.Matched? ==>
                && |r.captures| == WildcardCount(p)
                && Explains(p, LoweredAll(c, r.captures), Lowered(c, text))
                && forall caps :: Explains(p, caps, Lowered(c, text)) ==> LexAtLeast(Lengths(r.captures), Lengths(caps)))
  {
    hide Glob, GreedyCaptures, Cut, Lengths;
    var low := Lowered(c, text);
    GlobIffExplained(p, low);
    if Glob(p, low) {
      var g := GreedyCaptures(p, low);
      GreedyExplains(p, low);
      CutSucceeds(p, g, low, text, 0);
      assert low[0..] == low;
      CutIsGreedy(c, p, g, low, text, 0);
      forall caps | Explains(p, caps, low) ensures LexAtLeast(Lengths(g), Lengths(caps)) {
        GreedyIsGreatest(p, low, caps);
      }
    }
  }

  /**
   * The same for a pattern as it is configured and a name as it is received: nothing but
   * trailing dots and letter case separates them from what is matched. They match exactly if
   * the lowered name has up to 255 characters and is an instance of the lowered pattern; then
   * the captures number `wildcard_count`, give the name back when put into the pattern, and no
   * other reading has a lexicographically greater vector of lengths.
   */
  lemma CapturesAreCounted(c: char -> char, raw: string, pattern: string, hostname: string, name: string)
    requires Trimmed(raw, pattern) && Trimmed(hostname, name)
    ensures var hp := NewPattern(raw, s => Lowered(c, s));
            var p, low := Lowered(c, pattern), Lowered(c, name);
            var r := MatchSpec(hp.pattern, name, low);
            && hp == HostPattern(raw, p, WildcardCount(p)) && !r.SlicePanic?
            && (r.Matched? <==> |name| <= 255 && exists caps :: Explains(p, caps, low))
            && (r.Matched? ==>
                && |r.captures| == hp.wildcardCount
                && Explains(p, LoweredAll(c, r.captures), low)
                && forall caps :: Explains(p, caps, low) ==> LexAtLeast(Lengths(r.captures), Lengths(caps)))
  {
    hide Glob, Cut, GreedyCaptures, Lengths, Explains, TrimDots, LoweredAll;
    TrimDotsIs(raw, pattern);
    if |name| <= MAX_HOST_CHARS {
      MatchHostCorrect(c, Lowered(c, pattern), name);
      GlobIffExplained(Lowered(c, pattern), Lowered(c, name));
    }
  }

  // ----- lower-casing that changes the length -----

  /** The literals behind the last wildcard. */
  function TailLiterals(p: string): nat {
    if WildcardCount(p) == 0 then |p| else TailLiterals(p[1..])
  }

  lemma {:induction false} FilledTail(p: string, caps: seq<string>)
    requires ValidCaptures(p, caps)
    ensures TailLiterals(p) <= |Fill(p, caps)| && (WildcardCount(p) == 0 ==> |Fill(p, caps)| == |p|)
  {
    if p != [] {
      FilledTail(p[1..], if IsWild(p[0]) then caps[1..] else caps);
    }
  }

  /** Captures of the lengths they have in `t` cannot be cut from `text` exactly when the last one ends behind it. */
  lemma {:induction false} CutFailsIff(p: string, caps: seq<string>, t: string, text: string, j: nat)
    requires Explains(p, caps, t)
    ensures Cut(p, Lengths(caps), text, j).None? <==> WildcardCount(p) > 0 && j + |t| - TailLiterals(p) > |text|
    decreases |p|
  {
    if p != [] {
      if !IsWild(p[0]) {
        CutFailsIff(p[1..], caps, Fill(p[1..], caps), text, j + 1);
      } else {
        var more := caps[1..];
        assert Lengths(caps)[1..] == Lengths(more);
        FilledTail(p[1..], more);
        CutFailsIff(p[1..], more, Fill(p[1..], more), text, j + |caps[0]|);
      }
    }
  }

  /** `caps` and one character for each literal, in the pattern's order, make up `text`. */
  predicate Tiles(p: string, caps: seq<string>, text: string) {
    if p == [] then caps == [] && text == []
    else if !IsWild(p[0]) then text != [] && Tiles(p[1..], caps, text[1..])
    else
      && caps != [] && caps[0] <= text && (p[0] == '?' ==> |caps[0]| == 1)
      && Tiles(p[1..], caps[1..], text[|caps[0]|..])
  }

  lemma {:induction false} CutTilesIff(p: string, caps: seq<string>, t: string, text: string, j: nat)
    requires Explains(p, caps, t) && j <= |text| && Cut(p, Lengths(caps), text, j).Some?
    ensures Tiles(p, Cut(p, Lengths(caps), text, j).value, text[j..]) <==> j + |t| == |text|
    decreases |p|
  {
    hide Lengths;
    if p != [] {
      if !IsWild(p[0]) {
        if j < |text| {
          assert text[j..][1..] == text[j + 1..];
          CutTilesIff(p[1..], caps, Fill(p[1..], caps), text, j + 1);
        }
      } else {
        var k := |caps[0]|;
        CutWild(p, caps, text, j);
        var cut := Cut(p, Lengths(caps), text, j).value;
        var rest := Cut(p[1..], Lengths(caps[1..]), text, j + k).value;
        assert cut[0] == text[j..j + k] && cut[1..] == rest;
        assert text[j..][..k] == cut[0] && text[j..][k..] == text[j + k..];
        CutTilesIff(p[1..], caps[1..], Fill(p[1..], caps[1..]), text, j + k);
      }
    }
  }

  /**
   * For any lower-casing `low` of a name of up to 255 characters: `match_host` panics exactly
   * when the pattern has a wildcard, matches `low`, and what its last wildcard takes of `low`
   * reaches past the name.
   */
  lemma PanicsIff(p: string, text: string, low: string)
    requires |text| <= 255
    ensures MatchSpec(p, text, low).SlicePanic? <==>
            Glob(p, low) && WildcardCount(p) > 0 && |low| - TailLiterals(p) > |text|
  {
    hide Glob, GreedyCaptures, Lengths, Cut, TailLiterals;
    if Glob(p, low) {
      GreedyExplains(p, low);
      CutFailsIff(p, GreedyCaptures(p, low), low, text, 0);
    }
  }

  /** And its captures, with the literals between them, make up the name exactly when `low` is as long as the name. */
  lemma TilesIff(p: string, text: string, low: string)
    requires |text| <= 255
    ensures var r := MatchSpec(p, text, low);
            r.Matched? && Tiles(p, r.captures, text) <==> Glob(p, low) && |low| == |text|
  {
    hide Glob, GreedyCaptures, Lengths, Cut, TailLiterals, Tiles;
    if Glob(p, low) {
      var g := GreedyCaptures(p, low);
      GreedyExplains(p, low);
      CutFailsIff(p, g, low, text, 0);
      assert text[0..] == text;
      if Cut(p, Lengths(g), text, 0).Some? {
        CutTilesIff(p, g, low, text, 0);
      }
    }
  }

  /** A longer lower-cased name can also give a wrong capture: here the literal dot ends up in it. */
  lemma MisplacedCapture(a: char, b: char, c: char)
    ensures MatchSpec("*.x", [a, '.', 'x'], [b, c, '.', 'x']) == Matched([[a, '.']])
    ensures !Tiles("*.x", [[a, '.']], [a, '.', 'x'])
  {
    var p, low, text := "*.x", [b, c, '.', 'x'], [a, '.', 'x'];
    var caps := [[b, c]];
    assert p[1..] == ".x" && ".x"[1..] == "x" && "x"[1..] == "";
    assert Fill("x", []) == "x" && Fill(".x", []) == ".x";
    assert caps[1..] == [] && Fill(p, caps) == [b, c] + ".x" == low;
    assert ValidCaptures("x", []) && ValidCaptures(".x", []) && ValidCaptures(p, caps);
    assert Explains(p, caps, low);
    OnlyReading(low);
    assert Lengths(caps) == [2];
    assert Cut("", [], text, 4) == Some([]);
    assert Cut("x", [], text, 3) == Some([]);
    assert Cut(".x", [], text, 2) == Some([]);
    assert text[0..2] == [a, '.'];
    assert text[1..][1..] == ['x'] && text[2..] == ['x'];
    assert Tiles(".x", [], ['x']) == false;
  }

  /** In front of two literals a star takes all but the last two characters. */
  lemma OnlyReading(low: string)
    requires |low| == 4 && Explains("*.x", [low[..2]], low)
    ensures Glob("*.x", low) && GreedyCaptures("*.x", low) == [low[..2]]
  {
    var p := "*.x";
    GreedyIsGreatest(p, low, [low[..2]]);
    GreedyExplains(p, low);
    var g := GreedyCaptures(p, low);
    assert p[1..] == ".x" && ".x"[1..] == "x" && "x"[1..] == "";
    assert WildcardCount("x") == 0 && WildcardCount(".x") == 0 && WildcardCount(p) == 1;
    assert g[1..] == [];
    assert Fill("x", []) == "x" && Fill(".x", []) == ".x";
    assert low == g[0] + ".x";
    assert low[..2] == g[0] && g == [g[0]];
  }

  /** A one-character name whose lower-casing has two characters (as U+0130 does) panics under `*`. */
  lemma ExpandingLowercasePanics(a: char, b: char, c: char)
    ensures MatchSpec("*", [a], [b, c]) == SlicePanic
  {
    var t := [b, c];
    assert t[2..] == [] && "*"[1..] == [];
    assert Glob([], t[2..]);
    LastSplitMeaning("*"[1..], t, 2, 2);
    StarTakes("*", t, 2);
    assert LastSplit("*"[1..], t, 2) == 2;
    assert GreedyCaptures("*", t) == [t[..2]];
  }
}
