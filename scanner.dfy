/**
  The coordinate scanner of index.js: `fourNumberReg.exec(text)` for the pattern
    [^0-9]*([0-9]+\.[0-9]+)[^0-9]*([0-9]+\.[0-9]+)[^0-9]*([0-9]+\.[0-9]+)[^0-9]*([0-9]+\.[0-9]+)[^0-9]*
  The pattern is not anchored, so the search tries every start position from the left, and at each
  start the greedy quantifiers backtrack in the order a JavaScript engine tries them.
  Captures are kept as the digit strings the source hands on; nothing converts them to numbers.
*/
module CoordinateScanner {
  import opened Wrappers

  predicate IsDigit(c: char) { '0' <= c <= '9' }

  /** Every character of s[lo..hi] is a digit. */
  predicate DigitsIn(s: string, lo: nat, hi: nat)
    requires lo <= hi <= |s|
  {
    forall k | lo <= k < hi :: IsDigit(s[k])
  }

  /** No character of s[lo..hi] is a digit (what `[^0-9]*` accepts). */
  predicate NoDigitsIn(s: string, lo: nat, hi: nat)
    requires lo <= hi <= |s|
  {
    forall k | lo <= k < hi :: !IsDigit(s[k])
  }

  /** Where one captured number lies: s[start..end], with its '.' at `dot`. */
  datatype Span = Span(start: nat, dot: nat, end: nat)

  /** s[t.start..t.end] is a number token `[0-9]+\.[0-9]+` with its dot at t.dot. */
  predicate IsNumberAt(s: string, t: Span) {
    t.start < t.dot && t.dot + 1 < t.end <= |s|
    && DigitsIn(s, t.start, t.dot) && s[t.dot] == '.' && DigitsIn(s, t.dot + 1, t.end)
  }

  /** Token b follows token a over non-digits only (what `[^0-9]*` between two groups accepts). */
  predicate Follows(s: string, a: Span, b: Span) {
    a.end <= b.start <= |s| && NoDigitsIn(s, a.end, b.start)
  }

  /** m is a match of the whole pattern somewhere in s: four number tokens in order, each after the last. */
  predicate IsMatch(s: string, m: seq<Span>) {
    && |m| == 4
    && IsNumberAt(s, m[0]) && IsNumberAt(s, m[1]) && IsNumberAt(s, m[2]) && IsNumberAt(s, m[3])
    && Follows(s, m[0], m[1]) && Follows(s, m[1], m[2]) && Follows(s, m[2], m[3])
  }

  /**
    m is a run of number tokens in order, the first at or after i, each one reached from
    the end of the previous one (or from i) over non-digits only.
  */
  predicate IsChainFrom(s: string, i: nat, m: seq<Span>)
    decreases |m|
  {
    && |m| > 0
    && IsNumberAt(s, m[0]) && i <= m[0].start && NoDigitsIn(s, i, m[0].start)
    && (|m| > 1 ==> IsChainFrom(s, m[0].end, m[1..]))
  }

  /** How far a greedy `[^0-9]*` reaches from i: the first digit at or after i, or the end. */
  function SkipNonDigits(s: string, i: nat): (j: nat)
    requires i <= |s|
    ensures i <= j <= |s| && NoDigitsIn(s, i, j) && (j < |s| ==> IsDigit(s[j]))
    decreases |s| - i
  {
    if i < |s| && !IsDigit(s[i]) then SkipNonDigits(s, i + 1) else i
  }

  /** How far a greedy `[0-9]*` reaches from i: the first non-digit at or after i, or the end. */
  function SkipDigits(s: string, i: nat): (j: nat)
    requires i <= |s|
    ensures i <= j <= |s| && DigitsIn(s, i, j) && (j < |s| ==> !IsDigit(s[j]))
    decreases |s| - i
  {
    if i < |s| && IsDigit(s[i]) then SkipDigits(s, i + 1) else i
  }

  /**
    Matches `[^0-9]*([0-9]+\.[0-9]+)` n times from position i, backtracking as the engine does.
    The separator must run to the next digit and the integer part to the next non-digit, since a
    shorter run leaves a non-digit where a digit is needed or a digit where the '.' is needed;
    so the only choice left is how long the fractional part is, tried longest first.
  */
  function MatchTokens(s: string, i: nat, n: nat): (r: Option<seq<Span>>)
    requires i <= |s| && 1 <= n
    ensures r.Some? ==> |r.value| == n && IsChainFrom(s, i, r.value)
    ensures r.Some? ==> r.value[0].start == SkipNonDigits(s, i)
    decreases n, |s| + 1
  {
    var t := SkipNonDigits(s, i);
    var dot := SkipDigits(s, t);
    if dot == t || dot == |s| || s[dot] != '.' then None
    else
      var end := SkipDigits(s, dot + 1);
      if end == dot + 1 then None else MatchFraction(s, t, dot, end, n)
  }

  /**
    The backtracking over the fractional part of the token s[t..] whose dot is at `dot`: try it
    ending at `end`, then one digit shorter, down to one digit; for each length, the remaining
    n - 1 tokens must match after it (the last token needs nothing after it, as the trailing
    `[^0-9]*` accepts the empty string).
  */
  function MatchFraction(s: string, t: nat, dot: nat, end: nat, n: nat): (r: Option<seq<Span>>)
    requires t < dot && dot + 1 < end <= |s| && 1 <= n
    ensures r.Some? ==> |r.value| == n && r.value[0].start == t && r.value[0].dot == dot
    ensures r.Some? ==> dot + 1 < r.value[0].end <= end
    ensures r.Some? && n > 1 ==> IsChainFrom(s, r.value[0].end, r.value[1..])
    decreases n, end
  {
    var rest := if n == 1 then Some([]) else MatchTokens(s, end, n - 1);
    if rest.Some? then Some([Span(t, dot, end)] + rest.value)
    else if dot + 1 < end - 1 then MatchFraction(s, t, dot, end - 1, n)
    else None
  }

  /** The unanchored search: try the pattern at start i, then i + 1, ..., up to |s|. */
  function FindFrom(s: string, i: nat): (r: Option<seq<Span>>)
    requires i <= |s|
    ensures r.Some? ==> IsMatch(s, r.value) && i <= r.value[0].start
    decreases |s| - i
  {
    var r := MatchTokens(s, i, 4);
    if r.Some? then ChainOfFourIsMatch(s, i, r.value); r else if i == |s| then None else FindFrom(s, i + 1)
  }

  /** A chain of four tokens is a match of the pattern, and a match preceded by non-digits is a chain. */
  lemma ChainOfFourIsMatch(s: string, i: nat, m: seq<Span>)
    requires |m| == 4
    ensures IsChainFrom(s, i, m) <==> IsMatch(s, m) && i <= m[0].start && NoDigitsIn(s, i, m[0].start)
  {
    assert m[1..][0] == m[1] && m[1..][1..] == m[2..];
    assert m[2..][0] == m[2] && m[2..][1..] == m[3..];
    assert m[3..][0] == m[3];
    assert IsChainFrom(s, m[2].end, m[3..]) <==> IsNumberAt(s, m[3]) && Follows(s, m[2], m[3]);
    assert IsChainFrom(s, m[1].end, m[2..]) <==>
      IsNumberAt(s, m[2]) && Follows(s, m[1], m[2]) && IsChainFrom(s, m[2].end, m[3..]);
    assert IsChainFrom(s, m[0].end, m[1..]) <==>
      IsNumberAt(s, m[1]) && Follows(s, m[0], m[1]) && IsChainFrom(s, m[1].end, m[2..]);
  }

  /** The four capture groups: latitude, its precision, longitude, its precision. */
  datatype Groups = Groups(lat: string, latPrecision: string, long: string, longPrecision: string)

  function Text(s: string, t: Span): string
    requires t.start <= t.end <= |s|
  {
    s[t.start..t.end]
  }

  /** The text of the four tokens of a match, capture by capture. */
  function GroupsOf(s: string, m: seq<Span>): Groups
    requires IsMatch(s, m)
  {
    Groups(Text(s, m[0]), Text(s, m[1]), Text(s, m[2]), Text(s, m[3]))
  }

  /** `fourNumberReg.exec(s)`: the captures of the leftmost match, or None where exec gives null. */
  function Exec(s: string): Option<Groups> {
    var r := FindFrom(s, 0);
    if r.None? then None else Some(GroupsOf(s, r.value))
  }

  // ---------------------------------------------------------------------------------------------
  // The pattern's language stated on strings, and the scanner proved sound and complete for it.

  /** w is `digits "." digits`. */
  predicate IsNumber(w: string) {
    exists d: nat | d < |w| :: IsNumberAt(w, Span(0, d, |w|))
  }

  predicate NoDigits(w: string) {
    NoDigitsIn(w, 0, |w|)
  }

  /**
    s = p ++ a ++ n1 ++ b ++ n2 ++ c ++ n3 ++ d ++ rest, where a, b, c, d are the four groups of g,
    each a number token, and the separators n1, n2, n3 hold no digit.
  */
  predicate Splits(s: string, g: Groups, p: string, n1: string, n2: string, n3: string, rest: string) {
    && s == p + g.lat + n1 + g.latPrecision + n2 + g.long + n3 + g.longPrecision + rest
    && IsNumber(g.lat) && IsNumber(g.latPrecision) && IsNumber(g.long) && IsNumber(g.longPrecision)
    && NoDigits(n1) && NoDigits(n2) && NoDigits(n3)
  }

  /** s can be split as `Splits` describes, for some groups. */
  ghost predicate HasFourNumbers(s: string) {
    exists g, p, n1, n2, n3, rest :: Splits(s, g, p, n1, n2, n3, rest)
  }

  /** A match gives the four groups as number tokens, cut from s at the positions of m. */
  lemma MatchSplits(s: string, m: seq<Span>)
    requires IsMatch(s, m)
    ensures Splits(s, GroupsOf(s, m), s[..m[0].start], s[m[0].end..m[1].start], s[m[1].end..m[2].start],
                   s[m[2].end..m[3].start], s[m[3].end..])
  {
    var g := GroupsOf(s, m);
    GlueNine(s, m[0].start, m[0].end, m[1].start, m[1].end, m[2].start, m[2].end, m[3].start, m[3].end);
    NumberText(s, m[0]);
    NumberText(s, m[1]);
    NumberText(s, m[2]);
    NumberText(s, m[3]);
    SeparatorText(s, m[0], m[1]);
    SeparatorText(s, m[1], m[2]);
    SeparatorText(s, m[2], m[3]);
  }

  /** s cut at eight ordered positions is the concatenation of the nine pieces. */
  lemma GlueNine(s: string, c1: nat, c2: nat, c3: nat, c4: nat, c5: nat, c6: nat, c7: nat, c8: nat)
    requires c1 <= c2 <= c3 <= c4 <= c5 <= c6 <= c7 <= c8 <= |s|
    ensures s == s[..c1] + s[c1..c2] + s[c2..c3] + s[c3..c4] + s[c4..c5] + s[c5..c6] + s[c6..c7]
                 + s[c7..c8] + s[c8..]
  {
    Glue(s, c1, c2);
    Glue(s, c2, c3);
    Glue(s, c3, c4);
    Glue(s, c4, c5);
    Glue(s, c5, c6);
    Glue(s, c6, c7);
    Glue(s, c7, c8);
    Glue(s, c8, |s|);
    assert s == s[..|s|];
  }

  /** Cutting s at a and b: the prefix up to b is the prefix up to a followed by s[a..b]. */
  lemma Glue(s: string, a: nat, b: nat)
    requires a <= b <= |s|
    ensures s[..b] == s[..a] + s[a..b]
  {
  }

  /** The inverse of Glue: a prefix of s written as x + w holds x and then w. */
  lemma Peel(s: string, x: string, w: string)
    requires |x| + |w| <= |s| && s[..|x| + |w|] == x + w
    ensures s[..|x|] == x && s[|x|..|x| + |w|] == w
  {
    assert s[..|x|] == (x + w)[..|x|];
    assert s[|x|..|x| + |w|] == (x + w)[|x|..];
  }

  lemma NumberText(s: string, t: Span)
    requires IsNumberAt(s, t)
    ensures IsNumber(Text(s, t))
  {
    var w := Text(s, t);
    assert IsNumberAt(w, Span(0, t.dot - t.start, |w|));
  }

  lemma SeparatorText(s: string, a: Span, b: Span)
    requires Follows(s, a, b)
    ensures NoDigits(s[a.end..b.start])
  {
  }

  /** Soundness: whatever exec returns is four number tokens of s, in order, split by non-digits. */
  lemma ExecSound(s: string)
    requires Exec(s).Some?
    ensures exists p, n1, n2, n3, rest :: Splits(s, Exec(s).value, p, n1, n2, n3, rest)
  {
    var m := FindFrom(s, 0).value;
    assert Exec(s).value == GroupsOf(s, m);
    MatchHasSplit(s, m);
  }

  lemma MatchHasSplit(s: string, m: seq<Span>)
    requires IsMatch(s, m)
    ensures exists p, n1, n2, n3, rest :: Splits(s, GroupsOf(s, m), p, n1, n2, n3, rest)
  {
    MatchSplits(s, m);
  }

  /** A captured latitude or longitude starts with a digit: a leading '-' is taken as a separator. */
  lemma ExecUnsigned(s: string)
    requires Exec(s).Some?
    ensures IsDigit(Exec(s).value.lat[0]) && IsDigit(Exec(s).value.long[0])
    ensures Exec(s).value.lat[0] != '-' && Exec(s).value.long[0] != '-'
  {
    var m := FindFrom(s, 0).value;
    assert IsDigit(s[m[0].start]) && IsDigit(s[m[2].start]);
  }

  /** Completeness of one try: from a start i that reaches a chain of tokens, the matcher succeeds. */
  lemma {:induction false} MatchTokensComplete(s: string, i: nat, m: seq<Span>)
    requires IsChainFrom(s, i, m)
    ensures i <= |s| && MatchTokens(s, i, |m|).Some?
    decreases |m|, |s| + 1
  {
    var t := SkipNonDigits(s, i);
    assert IsDigit(s[m[0].start]);
    assert t == m[0].start;
    var dot := SkipDigits(s, t);
    assert dot == m[0].dot;
    var end := SkipDigits(s, dot + 1);
    assert m[0].end <= end;
    MatchFractionComplete(s, t, dot, end, m);
  }

  lemma {:induction false} MatchFractionComplete(s: string, t: nat, dot: nat, end: nat, m: seq<Span>)
    requires t < dot && dot + 1 < end <= |s|
    requires IsChainFrom(s, t, m) && m[0].start == t && m[0].dot == dot && m[0].end <= end
    requires DigitsIn(s, dot + 1, end)
    ensures MatchFraction(s, t, dot, end, |m|).Some?
    decreases |m|, end
  {
    if |m| > 1 {
      if end == m[0].end {
        MatchTokensComplete(s, end, m[1..]);
      } else if MatchTokens(s, end, |m| - 1).None? {
        MatchFractionComplete(s, t, dot, end - 1, m);
      }
    }
  }

  /**
    Leftmost: if s holds a match m, the search from any i at or before m's first token finds one,
    and the one it finds starts no later than m.
  */
  lemma FindFromLeftmost(s: string, i: nat, m: seq<Span>)
    requires IsMatch(s, m) && i <= m[0].start
    ensures FindFrom(s, i).Some? && FindFrom(s, i).value[0].start <= m[0].start
  {
    MatchStartsAtDigit(s, m);
    MatchFoundAtStart(s, m);
    FindFromReaches(s, i, m[0].start);
  }

  /** The search from i gets no further than a digit k at which the pattern matches. */
  lemma {:induction false} FindFromReaches(s: string, i: nat, k: nat)
    requires i <= k < |s| && IsDigit(s[k]) && MatchTokens(s, k, 4).Some?
    ensures FindFrom(s, i).Some? && FindFrom(s, i).value[0].start <= k
    decreases k - i
  {
    if MatchTokens(s, i, 4).Some? {
      SkipStopsAtDigit(s, i, k);
      FindFromHere(s, i);
    } else {
      FindFromReaches(s, i + 1, k);
      FindFromNext(s, i);
    }
  }

  /** A match begins with a digit of s. */
  lemma MatchStartsAtDigit(s: string, m: seq<Span>)
    requires IsMatch(s, m)
    ensures m[0].start < |s| && IsDigit(s[m[0].start])
  {
  }

  /** The search tried at a match's first digit succeeds there. */
  lemma MatchFoundAtStart(s: string, m: seq<Span>)
    requires IsMatch(s, m)
    ensures m[0].start <= |s| && MatchTokens(s, m[0].start, 4).Some?
  {
    ChainOfFourIsMatch(s, m[0].start, m);
    MatchTokensComplete(s, m[0].start, m);
  }

  /** The search stops at the first start where the pattern matches. */
  lemma FindFromHere(s: string, i: nat)
    requires i <= |s| && MatchTokens(s, i, 4).Some?
    ensures FindFrom(s, i) == MatchTokens(s, i, 4)
  {
  }

  /** Where the pattern does not match, the search moves on one position. */
  lemma FindFromNext(s: string, i: nat)
    requires i < |s| && MatchTokens(s, i, 4).None?
    ensures FindFrom(s, i) == FindFrom(s, i + 1)
  {
  }

  /** `[^0-9]*` from i stops at or before any digit at or after i. */
  lemma SkipStopsAtDigit(s: string, i: nat, k: nat)
    requires i <= k < |s| && IsDigit(s[k])
    ensures SkipNonDigits(s, i) <= k
  {
    var j := SkipNonDigits(s, i);
    assert NoDigitsIn(s, i, j) && IsDigit(s[k]);
  }

  /** Completeness: if s splits into four number tokens separated by non-digits, exec matches. */
  lemma ExecComplete(s: string, g: Groups, p: string, n1: string, n2: string, n3: string, rest: string)
    requires Splits(s, g, p, n1, n2, n3, rest)
    ensures Exec(s).Some?
  {
    var m := SplitsMatch(s, g, p, n1, n2, n3, rest);
    FindFromLeftmost(s, 0, m);
  }

  /** The same, stated as the scanner failure property: exec yields no match iff no split exists. */
  lemma ExecNoneIff(s: string)
    ensures Exec(s).None? <==> !HasFourNumbers(s)
  {
    if Exec(s).Some? {
      ExecSound(s);
    }
    if HasFourNumbers(s) {
      var g, p, n1, n2, n3, rest :| Splits(s, g, p, n1, n2, n3, rest);
      ExecComplete(s, g, p, n1, n2, n3, rest);
    }
  }

  /** The positions of the pieces of a split, as a match. */
  lemma SplitsMatch(s: string, g: Groups, p: string, n1: string, n2: string, n3: string, rest: string)
      returns (m: seq<Span>)
    requires Splits(s, g, p, n1, n2, n3, rest)
    ensures IsMatch(s, m) && m[0].start == |p|
    ensures Text(s, m[0]) == g.lat && Text(s, m[1]) == g.latPrecision
    ensures Text(s, m[2]) == g.long && Text(s, m[3]) == g.longPrecision
  {
    var o1 := |p|;
    var o2 := o1 + |g.lat|;
    var o3 := o2 + |n1|;
    var o4 := o3 + |g.latPrecision|;
    var o5 := o4 + |n2|;
    var o6 := o5 + |g.long|;
    var o7 := o6 + |n3|;
    var o8 := o7 + |g.longPrecision|;
    PeelNine(s, p, g.lat, n1, g.latPrecision, n2, g.long, n3, g.longPrecision, rest);
    m := PiecesMatch(s, g, n1, n2, n3, o1, o2, o3, o4, o5, o6, o7, o8);
  }

  /** Four number pieces at ordered positions of s, with digit-free pieces between them, are a match. */
  lemma PiecesMatch(s: string, g: Groups, n1: string, n2: string, n3: string,
                    o1: nat, o2: nat, o3: nat, o4: nat, o5: nat, o6: nat, o7: nat, o8: nat)
      returns (m: seq<Span>)
    requires o1 <= o2 <= o3 <= o4 <= o5 <= o6 <= o7 <= o8 <= |s|
    requires s[o1..o2] == g.lat && s[o2..o3] == n1 && s[o3..o4] == g.latPrecision && s[o4..o5] == n2
    requires s[o5..o6] == g.long && s[o6..o7] == n3 && s[o7..o8] == g.longPrecision
    requires IsNumber(g.lat) && IsNumber(g.latPrecision) && IsNumber(g.long) && IsNumber(g.longPrecision)
    requires NoDigits(n1) && NoDigits(n2) && NoDigits(n3)
    ensures IsMatch(s, m) && m[0].start == o1
    ensures Text(s, m[0]) == g.lat && Text(s, m[1]) == g.latPrecision
    ensures Text(s, m[2]) == g.long && Text(s, m[3]) == g.longPrecision
  {
    var t0 := NumberSpan(s, o1, o2, g.lat);
    var t1 := NumberSpan(s, o3, o4, g.latPrecision);
    var t2 := NumberSpan(s, o5, o6, g.long);
    var t3 := NumberSpan(s, o7, o8, g.longPrecision);
    SeparatorSpan(s, o2, o3, n1);
    SeparatorSpan(s, o4, o5, n2);
    SeparatorSpan(s, o6, o7, n3);
    m := [t0, t1, t2, t3];
  }

  /** A digit-free piece w found at s[lo..hi] leaves s[lo..hi] digit-free. */
  lemma SeparatorSpan(s: string, lo: nat, hi: nat, w: string)
    requires lo <= hi <= |s| && s[lo..hi] == w && NoDigits(w)
    ensures NoDigitsIn(s, lo, hi)
  {
    assert forall k | lo <= k < hi :: s[k] == w[k - lo];
  }

  /** The inverse of GlueNine: each piece of a concatenation sits at its offset. */
  lemma PeelNine(s: string, p: string, a: string, n1: string, b: string, n2: string, c: string,
                 n3: string, d: string, rest: string)
    requires s == p + a + n1 + b + n2 + c + n3 + d + rest
    ensures var o1 := |p|; var o2 := o1 + |a|; var o3 := o2 + |n1|; var o4 := o3 + |b|;
            var o5 := o4 + |n2|; var o6 := o5 + |c|; var o7 := o6 + |n3|; var o8 := o7 + |d|;
            && s[o1..o2] == a && s[o2..o3] == n1 && s[o3..o4] == b && s[o4..o5] == n2
            && s[o5..o6] == c && s[o6..o7] == n3 && s[o7..o8] == d
  {
    assert s[..|s|] == s;
    Peel(s, p + a + n1 + b + n2 + c + n3 + d, rest);
    Peel(s, p + a + n1 + b + n2 + c + n3, d);
    Peel(s, p + a + n1 + b + n2 + c, n3);
    Peel(s, p + a + n1 + b + n2, c);
    Peel(s, p + a + n1 + b, n2);
    Peel(s, p + a + n1, b);
    Peel(s, p + a, n1);
    Peel(s, p, a);
  }

  /** A number token w found at s[lo..hi] gives a span of s. */
  lemma NumberSpan(s: string, lo: nat, hi: nat, w: string) returns (t: Span)
    requires lo <= hi <= |s| && s[lo..hi] == w && IsNumber(w)
    ensures IsNumberAt(s, t) && t.start == lo && t.end == hi && Text(s, t) == w
  {
    var d: nat :| d < |w| && IsNumberAt(w, Span(0, d, |w|));
    t := Span(lo, lo + d, hi);
    assert forall k | 0 <= k < |w| :: s[lo + k] == w[k];
  }

  // ---------------------------------------------------------------------------------------------
  // A worked record: the coordinate text of a "Locations You Have Visited" entry.

  const VisitedText := "55.70,0.0,12.55,0.0"

  /** One match attempt, once the separator, integer part and longest fraction are known. */
  lemma TokenAt(s: string, i: nat, n: nat, t: nat, dot: nat, end: nat)
    requires i <= |s| && 1 <= n
    requires SkipNonDigits(s, i) == t && SkipDigits(s, t) == dot && t < dot < |s| && s[dot] == '.'
    requires SkipDigits(s, dot + 1) == end && dot + 1 < end
    ensures MatchTokens(s, i, n) == MatchFraction(s, t, dot, end, n)
  {
  }

  /** The longest fraction kept, because the remaining tokens match after it. */
  lemma FractionKept(s: string, t: nat, dot: nat, end: nat, n: nat, rest: seq<Span>)
    requires t < dot && dot + 1 < end <= |s| && 1 <= n
    requires if n == 1 then rest == [] else MatchTokens(s, end, n - 1) == Some(rest)
    ensures MatchFraction(s, t, dot, end, n) == Some([Span(t, dot, end)] + rest)
  {
  }

  lemma VisitedBounds()
    ensures SkipNonDigits(VisitedText, 0) == 0 && SkipDigits(VisitedText, 0) == 2 && SkipDigits(VisitedText, 3) == 5
    ensures SkipNonDigits(VisitedText, 5) == 6 && SkipDigits(VisitedText, 6) == 7 && SkipDigits(VisitedText, 8) == 9
    ensures SkipNonDigits(VisitedText, 9) == 10 && SkipDigits(VisitedText, 10) == 12 && SkipDigits(VisitedText, 13) == 15
    ensures SkipNonDigits(VisitedText, 15) == 16 && SkipDigits(VisitedText, 16) == 17 && SkipDigits(VisitedText, 18) == 19
  {
    assert SkipDigits(VisitedText, 2) == 2 && SkipDigits(VisitedText, 5) == 5;
    assert SkipDigits(VisitedText, 7) == 7 && SkipDigits(VisitedText, 9) == 9;
    assert SkipDigits(VisitedText, 12) == 12 && SkipDigits(VisitedText, 15) == 15;
    assert SkipDigits(VisitedText, 17) == 17;
  }

  /** The matcher takes each token of the text with its longest fraction. */
  lemma VisitedMatch()
    ensures MatchTokens(VisitedText, 0, 4)
         == Some([Span(0, 2, 5), Span(6, 7, 9), Span(10, 12, 15), Span(16, 17, 19)])
  {
    var s := VisitedText;
    VisitedBounds();
    TokenAt(s, 15, 1, 16, 17, 19);
    FractionKept(s, 16, 17, 19, 1, []);
    assert [Span(16, 17, 19)] + [] == [Span(16, 17, 19)];
    TokenAt(s, 9, 2, 10, 12, 15);
    FractionKept(s, 10, 12, 15, 2, [Span(16, 17, 19)]);
    assert [Span(10, 12, 15)] + [Span(16, 17, 19)] == [Span(10, 12, 15), Span(16, 17, 19)];
    TokenAt(s, 5, 3, 6, 7, 9);
    FractionKept(s, 6, 7, 9, 3, [Span(10, 12, 15), Span(16, 17, 19)]);
    assert [Span(6, 7, 9)] + [Span(10, 12, 15), Span(16, 17, 19)] == [Span(6, 7, 9), Span(10, 12, 15), Span(16, 17, 19)];
    TokenAt(s, 0, 4, 0, 2, 5);
    FractionKept(s, 0, 2, 5, 4, [Span(6, 7, 9), Span(10, 12, 15), Span(16, 17, 19)]);
    assert [Span(0, 2, 5)] + [Span(6, 7, 9), Span(10, 12, 15), Span(16, 17, 19)]
        == [Span(0, 2, 5), Span(6, 7, 9), Span(10, 12, 15), Span(16, 17, 19)];
  }

  /** The search succeeds at the first start position. */
  lemma VisitedFind()
    ensures FindFrom(VisitedText, 0)
         == Some([Span(0, 2, 5), Span(6, 7, 9), Span(10, 12, 15), Span(16, 17, 19)])
  {
    VisitedMatch();
  }

  lemma VisitedCaptures()
    ensures Text(VisitedText, Span(0, 2, 5)) == "55.70" && Text(VisitedText, Span(6, 7, 9)) == "0.0"
    ensures Text(VisitedText, Span(10, 12, 15)) == "12.55" && Text(VisitedText, Span(16, 17, 19)) == "0.0"
  {
    assert VisitedText[0..5] == "55.70";
    assert VisitedText[6..9] == "0.0";
    assert VisitedText[10..15] == "12.55";
    assert VisitedText[16..19] == "0.0";
  }

  /** exec on "55.70,0.0,12.55,0.0" captures latitude 55.70 and longitude 12.55. */
  lemma ExecVisitedText()
    ensures Exec(VisitedText) == Some(Groups("55.70", "0.0", "12.55", "0.0"))
  {
    VisitedFind();
    VisitedCaptures();
  }
}
