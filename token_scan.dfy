/**
 * `re.findall(r"(\d{1,3}(?:[.,]\d{3})+|\d{5,10})", html)` for this one
 * pattern: the tokens found by scanning left to right, taking at each
 * position the match a backtracking engine finds first (first alternative
 * before the second, greedy counts tried from the largest), and resuming
 * right after each match.
 */
module TokenScan {
  import opened Wrappers
  import opened Digits

  predicate IsSep(c: char) {
    c == '.' || c == ','
  }

  /** Length of the run of digits that starts at `p`. */
  function DigitRun(s: string, p: nat): (n: nat)
    requires p <= |s|
    ensures p + n <= |s|
    ensures forall i :: p <= i < p + n ==> IsDigit(s[i])
    ensures p + n < |s| ==> !IsDigit(s[p + n])
    decreases |s| - p
  {
    if p < |s| && IsDigit(s[p]) then 1 + DigitRun(s, p + 1) else 0
  }

  /** One repetition of the group `[.,]\d{3}` starts at `q`. */
  predicate GroupAt(s: string, q: int) {
    0 <= q && q + 4 <= |s| && IsSep(s[q]) &&
    IsDigit(s[q + 1]) && IsDigit(s[q + 2]) && IsDigit(s[q + 3])
  }

  /** How many groups follow one another from `q`. */
  function GroupRun(s: string, q: nat): (n: nat)
    ensures n > 0 ==> q + 4 * n <= |s|
    ensures !GroupAt(s, q + 4 * n)
    decreases |s| - q
  {
    if GroupAt(s, q) then 1 + GroupRun(s, q + 4) else 0
  }

  /** Each of the groups GroupRun counts is present. */
  lemma {:induction false} GroupAtEach(s: string, q: nat, j: nat)
    requires j < GroupRun(s, q)
    ensures GroupAt(s, q + 4 * j)
    decreases j
  {
    if j > 0 {
      GroupAtEach(s, q + 4, j - 1);
      assert q + 4 + 4 * (j - 1) == q + 4 * j;
    }
  }

  /** The end of the match that begins exactly at `p`, if any. */
  function MatchEnd(s: string, p: nat): (e: Option<nat>)
    requires p <= |s|
    ensures e.Some? ==> p < e.value <= |s|
  {
    var m := DigitRun(s, p);
    if 1 <= m <= 3 && GroupAt(s, p + m) then Some(p + m + 4 * GroupRun(s, p + m))
    else if m >= 5 then Some(p + if m < 10 then m else 10)
    else None
  }

  /** The ways the pattern can match from `p`: which alternative, and its repetition counts. */
  datatype Parse =
    | Grouped(lead: nat, groups: nat)  // \d{lead} then `groups` times [.,]\d{3}
    | Plain(digits: nat)               // \d{digits}

  function ParseEnd(p: nat, t: Parse): nat {
    match t
    case Grouped(k, n) => p + k + 4 * n
    case Plain(j) => p + j
  }

  ghost predicate Parses(s: string, p: nat, t: Parse) {
    match t
    case Grouped(k, n) =>
      1 <= k <= 3 && 1 <= n && p + k + 4 * n <= |s| &&
      (forall i :: p <= i < p + k ==> IsDigit(s[i])) &&
      (forall j :: 0 <= j < n ==> GroupAt(s, p + k + 4 * j))
    case Plain(j) =>
      5 <= j <= 10 && p + j <= |s| && forall i :: p <= i < p + j ==> IsDigit(s[i])
  }

  /**
   * The order in which a backtracking engine tries the parses: the first
   * alternative before the second, and within each, larger greedy counts first.
   */
  predicate TriedBefore(a: Parse, b: Parse) {
    match (a, b)
    case (Grouped(k1, n1), Grouped(k2, n2)) => k1 > k2 || (k1 == k2 && n1 > n2)
    case (Grouped(_, _), Plain(_)) => true
    case (Plain(j1), Plain(j2)) => j1 > j2
    case (Plain(_), Grouped(_, _)) => false
  }

  /** A run of digits from `p` is never longer than DigitRun. */
  lemma {:induction false} DigitsWithinRun(s: string, p: nat, k: nat)
    requires p + k <= |s| && forall i :: p <= i < p + k ==> IsDigit(s[i])
    ensures k <= DigitRun(s, p)
    decreases k
  {
    if k > 0 {
      DigitsWithinRun(s, p + 1, k - 1);
    }
  }

  /**
   * What every parse looks like: a grouped one takes the whole digit run as
   * its leading digits and repeats the group at most as often as the groups
   * run; a plain one takes no more digits than the run has.
   */
  lemma ParseShapes(s: string, p: nat)
    requires p <= |s|
    ensures forall k: nat, n: nat :: Parses(s, p, Grouped(k, n)) ==>
              k == DigitRun(s, p) && GroupAt(s, p + k) && n <= GroupRun(s, p + k)
    ensures forall j: nat :: Parses(s, p, Plain(j)) ==> j <= DigitRun(s, p)
  {
    forall k: nat, n: nat | Parses(s, p, Grouped(k, n))
      ensures k == DigitRun(s, p) && GroupAt(s, p + k) && n <= GroupRun(s, p + k)
    {
      GroupedParseShape(s, p, k, n);
    }
    forall j: nat | Parses(s, p, Plain(j))
      ensures j <= DigitRun(s, p)
    {
      DigitsWithinRun(s, p, j);
    }
  }

  /** One grouped parse: its leading digits are the whole run, and it has no more groups than run. */
  lemma GroupedParseShape(s: string, p: nat, k: nat, n: nat)
    requires Parses(s, p, Grouped(k, n))
    ensures k == DigitRun(s, p) && GroupAt(s, p + k) && n <= GroupRun(s, p + k)
  {
    DigitsWithinRun(s, p, k);
    assert GroupAt(s, p + k + 4 * 0);
    assert IsSep(s[p + k]);
    var r := GroupRun(s, p + k);
    assert r < n ==> GroupAt(s, p + k + 4 * r);
  }

  /** The parse the engine tries first, when one exists. */
  ghost function FirstParse(s: string, p: nat): Parse
    requires p <= |s|
  {
    var m := DigitRun(s, p);
    if 1 <= m <= 3 && GroupAt(s, p + m) then Grouped(m, GroupRun(s, p + m))
    else Plain(if m < 10 then m else 10)
  }

  lemma FirstParseOfGroups(s: string, p: nat)
    requires p <= |s|
    requires 1 <= DigitRun(s, p) <= 3 && GroupAt(s, p + DigitRun(s, p))
    ensures Parses(s, p, FirstParse(s, p))
    ensures forall u :: Parses(s, p, u) && u != FirstParse(s, p) ==> TriedBefore(FirstParse(s, p), u)
  {
    var m := DigitRun(s, p);
    var n := GroupRun(s, p + m);
    assert n >= 1;
    forall j | 0 <= j < n
      ensures GroupAt(s, p + m + 4 * j)
    {
      GroupAtEach(s, p + m, j);
    }
    assert FirstParse(s, p) == Grouped(m, n);
    GroupedTriedFirst(s, p, m, n);
  }

  /** The grouped parse with the whole digit run and every group is tried before any other parse. */
  lemma GroupedTriedFirst(s: string, p: nat, m: nat, n: nat)
    requires p <= |s| && m == DigitRun(s, p) && n == GroupRun(s, p + m)
    ensures forall u :: Parses(s, p, u) && u != Grouped(m, n) ==> TriedBefore(Grouped(m, n), u)
  {
    forall u | Parses(s, p, u) && u != Grouped(m, n)
      ensures TriedBefore(Grouped(m, n), u)
    {
      match u
      case Grouped(k, n2) =>
        GroupedParseShape(s, p, k, n2);
      case Plain(_) =>
    }
  }

  lemma FirstParseOfDigits(s: string, p: nat)
    requires p <= |s|
    requires !(1 <= DigitRun(s, p) <= 3 && GroupAt(s, p + DigitRun(s, p))) && DigitRun(s, p) >= 5
    ensures Parses(s, p, FirstParse(s, p))
    ensures forall u :: Parses(s, p, u) && u != FirstParse(s, p) ==> TriedBefore(FirstParse(s, p), u)
  {
    ParseShapes(s, p);
  }

  lemma NoParse(s: string, p: nat)
    requires p <= |s|
    requires !(1 <= DigitRun(s, p) <= 3 && GroupAt(s, p + DigitRun(s, p))) && DigitRun(s, p) < 5
    ensures forall u :: !Parses(s, p, u)
  {
    ParseShapes(s, p);
  }

  /**
   * MatchEnd is the end of the first parse the engine tries that succeeds,
   * and there is none exactly when no parse exists.
   */
  lemma MatchEndIsFirstParse(s: string, p: nat)
    requires p <= |s|
    ensures MatchEnd(s, p).None? <==> forall t :: !Parses(s, p, t)
    ensures MatchEnd(s, p).Some? ==>
              exists t :: Parses(s, p, t) && MatchEnd(s, p).value == ParseEnd(p, t) &&
                          forall u :: Parses(s, p, u) && u != t ==> TriedBefore(t, u)
  {
    var m := DigitRun(s, p);
    if 1 <= m <= 3 && GroupAt(s, p + m) {
      FirstParseOfGroups(s, p);
    } else if m >= 5 {
      FirstParseOfDigits(s, p);
    } else {
      NoParse(s, p);
    }
  }

  /** All tokens found from position `p` on. */
  function FindAll(s: string, p: nat): (ts: seq<string>)
    requires p <= |s|
    ensures |ts| <= |s| - p
    ensures forall t :: t in ts ==> 0 < |t| <= |s| - p
    decreases |s| - p
  {
    if p == |s| then []
    else
      match MatchEnd(s, p)
      case Some(e) => [s[p..e]] + FindAll(s, e)
      case None => FindAll(s, p + 1)
  }

  /** The token matched at `p` starts with a digit and holds only digits and separators. */
  lemma MatchIsNumeric(s: string, p: nat, e: nat)
    requires p <= |s| && MatchEnd(s, p) == Some(e)
    ensures IsDigit(s[p])
    ensures forall i :: p <= i < e ==> IsDigit(s[i]) || IsSep(s[i])
  {
    var m := DigitRun(s, p);
    if 1 <= m <= 3 && GroupAt(s, p + m) {
      GroupRunChars(s, p + m);
    }
  }

  /** The groups GroupRun counts hold only separators and digits. */
  lemma {:induction false} GroupRunChars(s: string, q: nat)
    ensures forall i :: q <= i < q + 4 * GroupRun(s, q) ==> IsDigit(s[i]) || IsSep(s[i])
    decreases |s| - q
  {
    if GroupAt(s, q) {
      GroupRunChars(s, q + 4);
    }
  }

  lemma MatchedTokenIsNumeric(s: string, p: nat, e: nat)
    requires p <= |s| && MatchEnd(s, p) == Some(e)
    ensures var t := s[p..e];
            |t| > 0 && IsDigit(t[0]) && forall i :: 0 <= i < |t| ==> IsDigit(t[i]) || IsSep(t[i])
  {
    MatchIsNumeric(s, p, e);
    var t := s[p..e];
    assert forall i :: 0 <= i < |t| ==> t[i] == s[p + i];
  }

  /** Every token starts with a digit and holds only digits and separators. */
  lemma {:induction false} TokensAreNumeric(s: string, p: nat)
    requires p <= |s|
    ensures forall t :: t in FindAll(s, p) ==>
              |t| > 0 && IsDigit(t[0]) && forall i :: 0 <= i < |t| ==> IsDigit(t[i]) || IsSep(t[i])
    decreases |s| - p
  {
    if p < |s| {
      match MatchEnd(s, p)
      case Some(e) =>
        TokensAreNumeric(s, e);
        MatchedTokenIsNumeric(s, p, e);
        assert FindAll(s, p) == [s[p..e]] + FindAll(s, e);
      case None =>
        TokensAreNumeric(s, p + 1);
    }
  }

  lemma {:induction false} DigitRunOfDigits(s: string, p: nat)
    requires p <= |s| && forall i :: p <= i < |s| ==> IsDigit(s[i])
    ensures DigitRun(s, p) == |s| - p
    decreases |s| - p
  {
    if p < |s| {
      DigitRunOfDigits(s, p + 1);
    }
  }

  /** A run of twelve digits yields one token: its first ten digits. */
  lemma TwelveDigitRunYieldsFirstTen(s: string)
    requires |s| == 12 && AllDigits(s)
    ensures FindAll(s, 0) == [s[..10]]
  {
    DigitRunOfDigits(s, 0);
    DigitRunOfDigits(s, 10);
    DigitRunOfDigits(s, 11);
    assert MatchEnd(s, 0) == Some(10);
    assert MatchEnd(s, 10).None? && MatchEnd(s, 11).None?;
    assert FindAll(s, 11) == [];
  }

  /** Positions where no match starts are passed over: the scan from `p` finds what the scan from `q` finds. */
  lemma {:induction false} FindAllSkipsGap(s: string, p: nat, q: nat)
    requires p <= q <= |s|
    requires forall r :: p <= r < q ==> MatchEnd(s, r).None?
    ensures FindAll(s, p) == FindAll(s, q)
    decreases q - p
  {
    if p < q {
      FindAllSkipsGap(s, p, q - 1);
      assert MatchEnd(s, q - 1).None?;
    }
  }

  /** Nothing is found from `p` exactly when no match starts at any position from `p` on. */
  lemma {:induction false} FindAllEmptyIffNoMatch(s: string, p: nat)
    requires p <= |s|
    ensures FindAll(s, p) == [] <==> forall r :: p <= r < |s| ==> MatchEnd(s, r).None?
    decreases |s| - p
  {
    if p < |s| {
      FindAllEmptyIffNoMatch(s, p + 1);
    }
  }

  /**
   * The first token found from `p` is the match at the leftmost position `q`
   * where one starts, and the scan resumes where that match ends.
   */
  lemma FindAllTakesLeftmost(s: string, p: nat, q: nat, e: nat)
    requires p <= q < |s| && MatchEnd(s, q) == Some(e)
    requires forall r :: p <= r < q ==> MatchEnd(s, r).None?
    ensures FindAll(s, p) == [s[q..e]] + FindAll(s, e)
  {
    FindAllSkipsGap(s, p, q);
  }

  /** A digit run of exactly `k` characters starts at `p`. */
  lemma DigitRunExact(s: string, p: nat, k: nat)
    requires p + k <= |s| && forall i :: p <= i < p + k ==> IsDigit(s[i])
    requires p + k < |s| ==> !IsDigit(s[p + k])
    ensures DigitRun(s, p) == k
  {
    DigitsWithinRun(s, p, k);
  }

  /** Exactly `n` groups follow one another from `q`. */
  lemma {:induction false} GroupRunExact(s: string, q: nat, n: nat)
    requires forall j :: 0 <= j < n ==> GroupAt(s, q + 4 * j)
    requires !GroupAt(s, q + 4 * n)
    ensures GroupRun(s, q) == n
    decreases n
  {
    if n > 0 {
      assert GroupAt(s, q + 4 * 0);
      forall j | 0 <= j < n - 1
        ensures GroupAt(s, q + 4 + 4 * j)
      {
        assert GroupAt(s, q + 4 * (j + 1));
      }
      assert q + 4 + 4 * (n - 1) == q + 4 * n;
      GroupRunExact(s, q + 4, n - 1);
    }
  }

  /**
   * `s[..L]` is a number with its thousands separated by `.`: digits, with a
   * `.` exactly at the positions after the first from which a multiple of
   * four characters remain.
   */
  ghost predicate DottedNumber(s: string, L: nat) {
    4 < L <= |s| && L % 4 != 0 &&
    (forall i :: 0 <= i < L ==> s[i] == '.' || IsDigit(s[i])) &&
    (forall i :: 0 <= i < L ==> (s[i] == '.' <==> 0 < i && (L - i) % 4 == 0))
  }

  /** A dotted number at the start of the text is matched whole by the grouped alternative. */
  lemma MatchOfDottedNumber(s: string, L: nat)
    requires DottedNumber(s, L)
    requires !GroupAt(s, L)
    ensures MatchEnd(s, 0) == Some(L)
  {
    var lead, g := L % 4, L / 4;
    assert L == lead + 4 * g && 1 <= lead <= 3 && g >= 1;
    forall i | 0 <= i < lead
      ensures IsDigit(s[i])
    {
      assert s[i] != '.';
    }
    assert s[lead] == '.';
    DigitRunExact(s, 0, lead);
    forall j | 0 <= j < g
      ensures GroupAt(s, lead + 4 * j)
    {
      DottedGroup(s, L, g - j);
    }
    assert lead + 4 * g == L;
    GroupRunExact(s, lead, g);
  }

  /** In a dotted number, a `.` at a multiple of four from the end is followed by three digits. */
  lemma DottedGroup(s: string, L: nat, k: nat)
    requires DottedNumber(s, L)
    requires 1 <= k && 4 * k < L
    ensures GroupAt(s, L - 4 * k)
  {
    var q := L - 4 * k;
    assert (L - q) % 4 == 0;
    assert s[q] == '.';
    assert s[q + 1] != '.' && s[q + 2] != '.' && s[q + 3] != '.';
  }

  /** A dotted number followed by text without digits yields exactly one token: the number. */
  lemma FindAllOfDottedNumber(s: string, L: nat)
    requires DottedNumber(s, L)
    requires forall i :: L <= i < |s| ==> !IsDigit(s[i])
    ensures FindAll(s, 0) == [s[..L]]
  {
    assert !GroupAt(s, L);
    MatchOfDottedNumber(s, L);
    forall r | L <= r < |s|
      ensures MatchEnd(s, r).None?
    {
      assert DigitRun(s, r) == 0;
    }
    FindAllSkipsGap(s, L, |s|);
    assert FindAll(s, 0) == [s[0..L]] + FindAll(s, L);
  }
}
