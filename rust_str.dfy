/**
 * The behaviour of the Rust standard-library string operations that the
 * exercises rely on: `split_whitespace`, `trim`, `split(char)`, `lines`,
 * `join`, `to_lowercase` on ASCII, `usize::from_str` and decimal formatting.
 * Strings are sequences of Unicode scalar values.
 */
module RustStr {
  import opened Wrappers

  /** The largest `usize` on a 64-bit target. */
  const USIZE_MAX: nat := 0xFFFF_FFFF_FFFF_FFFF

  // ---------------------------------------------------------------------------
  // Whitespace, words and trimming
  // ---------------------------------------------------------------------------

  /** Unicode White_Space, which `char::is_whitespace` tests. */
  predicate IsWhitespace(c: char) {
    || c == ' ' || c == '\t' || c == '\n' || c == '\U{000B}' || c == '\U{000C}' || c == '\r'
    || c == '\U{0085}' || c == '\U{00A0}' || c == '\U{1680}'
    || ('\U{2000}' <= c <= '\U{200A}')
    || c == '\U{2028}' || c == '\U{2029}' || c == '\U{202F}' || c == '\U{205F}' || c == '\U{3000}'
  }

  predicate NoWhitespace(s: string) {
    forall i :: 0 <= i < |s| ==> !IsWhitespace(s[i])
  }

  predicate AllWhitespace(s: string) {
    forall i :: 0 <= i < |s| ==> IsWhitespace(s[i])
  }

  /** A piece that `split_whitespace` can yield: non-empty, no whitespace. */
  predicate IsWord(s: string) {
    |s| > 0 && NoWhitespace(s)
  }

  /** Length of the leading run of non-whitespace characters of `s`. */
  function WordLength(s: string): (n: nat)
    ensures n <= |s|
    ensures NoWhitespace(s[..n])
    ensures n < |s| ==> IsWhitespace(s[n])
  {
    if s == [] || IsWhitespace(s[0]) then 0
    else
      var m := WordLength(s[1..]);
      assert s[..m + 1] == [s[0]] + s[1..][..m];
      m + 1
  }

  /** `str::split_whitespace`, collected. */
  function Words(s: string): (ws: seq<string>)
    ensures forall i :: 0 <= i < |ws| ==> IsWord(ws[i])
    decreases |s|
  {
    if s == [] then []
    else if IsWhitespace(s[0]) then Words(s[1..])
    else
      var n := WordLength(s);
      [s[..n]] + Words(s[n..])
  }

  /** `str::trim_start`. */
  function TrimStart(s: string): (r: string)
    ensures |r| <= |s|
    ensures r == [] || !IsWhitespace(r[0])
  {
    if s != [] && IsWhitespace(s[0]) then TrimStart(s[1..]) else s
  }

  /** `str::trim_end`. */
  function TrimEnd(s: string): (r: string)
    ensures |r| <= |s|
    ensures r == [] || !IsWhitespace(r[|r| - 1])
  {
    if s != [] && IsWhitespace(s[|s| - 1]) then TrimEnd(s[..|s| - 1]) else s
  }

  /** `str::trim`: both ends, Unicode whitespace. */
  function Trim(s: string): string {
    TrimEnd(TrimStart(s))
  }

  /** `trim_start` removes a prefix made only of whitespace. */
  lemma {:induction false} TrimStartDropsWhitespace(s: string)
    ensures var r := TrimStart(s);
      r == s[|s| - |r|..] && AllWhitespace(s[..|s| - |r|])
  {
    if s != [] && IsWhitespace(s[0]) {
      TrimStartDropsWhitespace(s[1..]);
      var r := TrimStart(s);
      var k := |s| - |r|;
      assert s[..k] == [s[0]] + s[1..][..k - 1];
      assert s[k..] == s[1..][k - 1..];
    }
  }

  /** `trim_end` removes a suffix made only of whitespace. */
  lemma {:induction false} TrimEndDropsWhitespace(s: string)
    ensures var r := TrimEnd(s);
      r == s[..|r|] && AllWhitespace(s[|r|..])
  {
    if s != [] && IsWhitespace(s[|s| - 1]) {
      TrimEndDropsWhitespace(s[..|s| - 1]);
      var r := TrimEnd(s);
      assert s[|r|..] == s[..|s| - 1][|r|..] + [s[|s| - 1]];
    }
  }

  lemma {:induction false} WordLengthOfWordThenSpace(w: string, t: string)
    requires NoWhitespace(w)
    requires t == [] || IsWhitespace(t[0])
    ensures WordLength(w + t) == |w|
  {
    if w != [] {
      assert (w + t)[1..] == w[1..] + t;
      WordLengthOfWordThenSpace(w[1..], t);
    }
  }

  /** Leading whitespace does not change the words. */
  lemma {:induction false} WordsSkipWhitespace(pad: string, s: string)
    requires AllWhitespace(pad)
    ensures Words(pad + s) == Words(s)
  {
    if pad == [] {
      assert pad + s == s;
    } else {
      assert (pad + s)[0] == pad[0];
      assert (pad + s)[1..] == pad[1..] + s;
      WordsSkipWhitespace(pad[1..], s);
    }
  }

  /** Trailing whitespace does not change the words. */
  lemma {:induction false} WordsIgnoreTrailingWhitespace(s: string, pad: string)
    requires AllWhitespace(pad)
    ensures Words(s + pad) == Words(s)
    decreases |s|
  {
    if s == [] {
      assert s + pad == pad + [];
      WordsSkipWhitespace(pad, []);
    } else if IsWhitespace(s[0]) {
      assert (s + pad)[1..] == s[1..] + pad;
      WordsIgnoreTrailingWhitespace(s[1..], pad);
    } else {
      var n := WordLength(s);
      assert s == s[..n] + s[n..];
      WordLengthOfWordThenSpace(s[..n], s[n..] + pad);
      assert s + pad == s[..n] + (s[n..] + pad);
      assert (s + pad)[..n] == s[..n];
      assert (s + pad)[n..] == s[n..] + pad;
      WordsIgnoreTrailingWhitespace(s[n..], pad);
    }
  }

  /** A word followed by a space is the first word of the line. */
  lemma WordThenSpace(w: string, t: string)
    requires IsWord(w)
    ensures Words(w + " " + t) == [w] + Words(t)
  {
    var rest := " " + t;
    assert w + " " + t == w + rest;
    WordLengthOfWordThenSpace(w, rest);
    assert (w + rest)[..|w|] == w;
    assert (w + rest)[|w|..] == rest;
    WordsSkipWhitespace(" ", t);
  }

  /** `split_whitespace` after `trim` yields what it yields without the trim. */
  lemma WordsOfTrim(s: string)
    ensures Words(Trim(s)) == Words(s)
  {
    var a := TrimStart(s);
    TrimStartDropsWhitespace(s);
    TrimEndDropsWhitespace(a);
    assert s == s[..|s| - |a|] + a;
    WordsSkipWhitespace(s[..|s| - |a|], a);
    var b := TrimEnd(a);
    assert a == b + a[|b|..];
    WordsIgnoreTrailingWhitespace(b, a[|b|..]);
  }

  // ---------------------------------------------------------------------------
  // Joining and splitting on a character
  // ---------------------------------------------------------------------------

  /** `[String]::join(sep)`. */
  function Join(ws: seq<string>, sep: string): string {
    if ws == [] then []
    else if |ws| == 1 then ws[0]
    else ws[0] + sep + Join(ws[1..], sep)
  }

  /** Words joined by single spaces split back into the same words. */
  lemma {:induction false} WordsOfJoin(ws: seq<string>)
    requires forall i :: 0 <= i < |ws| ==> IsWord(ws[i])
    ensures Words(Join(ws, " ")) == ws
  {
    if |ws| == 1 {
      WordLengthOfWordThenSpace(ws[0], []);
      assert ws[0] + [] == ws[0];
      assert ws[0][|ws[0]|..] == [];
    } else if |ws| > 1 {
      var rest := " " + Join(ws[1..], " ");
      assert Join(ws, " ") == ws[0] + rest;
      WordLengthOfWordThenSpace(ws[0], rest);
      assert (ws[0] + rest)[..|ws[0]|] == ws[0];
      assert (ws[0] + rest)[|ws[0]|..] == rest;
      WordsSkipWhitespace(" ", Join(ws[1..], " "));
      WordsOfJoin(ws[1..]);
    }
  }

  /** Position of the first `c` in `s`. */
  function IndexOf(s: string, c: char): (i: nat)
    requires c in s
    ensures i < |s| && s[i] == c && c !in s[..i]
  {
    if s[0] == c then 0
    else
      var j := IndexOf(s[1..], c);
      assert s[..j + 1] == [s[0]] + s[1..][..j];
      j + 1
  }

  /** Number of occurrences of `c` in `s`. */
  function Occurrences(s: string, c: char): nat {
    multiset(s)[c]
  }

  /** `str::split(c)`, collected: always at least one piece, one more than separators. */
  function Split(s: string, c: char): (parts: seq<string>)
    ensures |parts| == Occurrences(s, c) + 1
    ensures forall k :: 0 <= k < |parts| ==> c !in parts[k]
    decreases |s|
  {
    if c !in s then [s]
    else
      var i := IndexOf(s, c);
      assert s == s[..i] + [c] + s[i + 1..];
      assert multiset(s) == multiset(s[..i]) + multiset{c} + multiset(s[i + 1..]);
      [s[..i]] + Split(s[i + 1..], c)
  }

  /** Pieces free of the separator survive a join followed by a split. */
  lemma {:induction false} SplitOfJoin(parts: seq<string>, c: char)
    requires |parts| >= 1
    requires forall k :: 0 <= k < |parts| ==> c !in parts[k]
    ensures Split(Join(parts, [c]), c) == parts
  {
    if |parts| > 1 {
      var s := Join(parts, [c]);
      assert s == parts[0] + [c] + Join(parts[1..], [c]);
      assert c in s by { assert s[|parts[0]|] == c; }
      var i := IndexOf(s, c);
      assert s[..i] == parts[0];
      assert s[i + 1..] == Join(parts[1..], [c]);
      SplitOfJoin(parts[1..], c);
    }
  }

  /** A join with a separator puts `|parts| - 1` of them in (given none inside the parts). */
  lemma {:induction false} OccurrencesOfJoin(parts: seq<string>, c: char)
    requires forall k :: 0 <= k < |parts| ==> c !in parts[k]
    ensures |parts| >= 1 ==> Occurrences(Join(parts, [c]), c) == |parts| - 1
  {
    if |parts| == 1 {
      assert multiset(parts[0])[c] == 0;
    } else if |parts| > 1 {
      OccurrencesOfJoin(parts[1..], c);
      var s := Join(parts, [c]);
      assert s == parts[0] + [c] + Join(parts[1..], [c]);
      assert multiset(s) == multiset(parts[0]) + multiset{c} + multiset(Join(parts[1..], [c]));
      assert multiset(parts[0])[c] == 0;
    }
  }

  // ---------------------------------------------------------------------------
  // Lines
  // ---------------------------------------------------------------------------

  /** Drops one `'\r'` left in front of a line's `'\n'`. */
  function StripCr(line: string): string {
    if |line| > 0 && line[|line| - 1] == '\r' then line[..|line| - 1] else line
  }

  /**
   * `str::lines`: splits after every `'\n'`, strips the `'\n'` and a `'\r'`
   * before it; a final line need not be terminated, and an empty text or a
   * final `'\n'` yields no trailing empty line.
   */
  function Lines(s: string): seq<string>
    decreases |s|
  {
    if s == [] then []
    else if '\n' !in s then [s]
    else
      var i := IndexOf(s, '\n');
      [StripCr(s[..i])] + Lines(s[i + 1..])
  }

  /** Each line followed by `'\n'`, concatenated: what a file of lines holds. */
  function Terminated(ls: seq<string>): string {
    if ls == [] then [] else ls[0] + "\n" + Terminated(ls[1..])
  }

  /** Terminating one more line appends it and its newline. */
  lemma {:induction false} TerminatedOneMore(ls: seq<string>, l: string)
    ensures Terminated(ls + [l]) == Terminated(ls) + l + "\n"
  {
    if ls != [] {
      assert (ls + [l])[1..] == ls[1..] + [l];
      TerminatedOneMore(ls[1..], l);
    } else {
      assert [l][1..] == [];
    }
  }

  /** A line that `Lines` gives back unchanged once terminated. */
  predicate IsPlainLine(l: string) {
    '\n' !in l && (l == [] || l[|l| - 1] != '\r')
  }

  lemma {:induction false} LinesOfTerminated(ls: seq<string>)
    requires forall k :: 0 <= k < |ls| ==> IsPlainLine(ls[k])
    ensures Lines(Terminated(ls)) == ls
  {
    if ls != [] {
      var s := Terminated(ls);
      var rest := Terminated(ls[1..]);
      assert s == ls[0] + "\n" + rest;
      assert s[|ls[0]|] == '\n';
      var i := IndexOf(s, '\n');
      assert s[..i] == ls[0];
      assert s[i + 1..] == rest;
      LinesOfTerminated(ls[1..]);
    }
  }

  // ---------------------------------------------------------------------------
  // Case
  // ---------------------------------------------------------------------------

  function ToAsciiLowerChar(c: char): (d: char)
    ensures 'A' <= c <= 'Z' ==> d as int == c as int + 32
    ensures !('A' <= c <= 'Z') ==> d == c
  {
    if 'A' <= c <= 'Z' then (c as int + 32) as char else c
  }

  /** `str::to_lowercase`, on the ASCII letters. */
  function ToAsciiLower(s: string): (r: string)
    ensures |r| == |s|
    ensures forall i :: 0 <= i < |s| ==> r[i] == ToAsciiLowerChar(s[i])
  {
    if s == [] then [] else [ToAsciiLowerChar(s[0])] + ToAsciiLower(s[1..])
  }

  // ---------------------------------------------------------------------------
  // Decimal numbers
  // ---------------------------------------------------------------------------

  predicate IsDigit(c: char) {
    '0' <= c <= '9'
  }

  predicate AllDigits(s: string) {
    forall i :: 0 <= i < |s| ==> IsDigit(s[i])
  }

  function DigitChar(d: nat): (c: char)
    requires d < 10
    ensures IsDigit(c) && c as int - '0' as int == d
  {
    ('0' as int + d) as char
  }

  /** The value of a run of decimal digits, most significant first. */
  function DigitsValue(s: string): nat
    requires AllDigits(s)
  {
    if s == [] then 0
    else DigitsValue(s[..|s| - 1]) * 10 + (s[|s| - 1] as int - '0' as int)
  }

  /** The `{}` formatting of an unsigned integer: no sign, no leading zero. */
  function NatToString(n: nat): (s: string)
    ensures |s| > 0 && AllDigits(s)
    ensures |s| > 1 ==> s[0] != '0'
  {
    if n < 10 then [DigitChar(n)]
    else NatToString(n / 10) + [DigitChar(n % 10)]
  }

  /** The `{}` formatting of a signed integer. */
  function IntToString(i: int): (s: string)
    ensures i < 0 <==> (|s| > 0 && s[0] == '-')
  {
    if i < 0 then "-" + NatToString(-i) else NatToString(i)
  }

  /**
   * `str::parse::<usize>()`: an optional leading `'+'`, then at least one
   * ASCII digit and nothing else, with a value that fits in `usize`.
   */
  function ParseUsize(s: string): (r: Option<nat>)
    ensures r.Some? ==> r.value <= USIZE_MAX
  {
    var digits := if |s| > 0 && s[0] == '+' then s[1..] else s;
    if digits == [] || !AllDigits(digits) then None
    else if DigitsValue(digits) <= USIZE_MAX then Some(DigitsValue(digits))
    else None
  }

  lemma {:induction false} DigitsValueOfNatToString(n: nat)
    ensures DigitsValue(NatToString(n)) == n
  {
    if n >= 10 {
      DigitsValueOfNatToString(n / 10);
      var s := NatToString(n);
      assert s[..|s| - 1] == NatToString(n / 10);
    }
  }

  /** Formatting a `usize` and parsing it back gives the same number. */
  lemma ParseUsizeOfNatToString(n: nat)
    requires n <= USIZE_MAX
    ensures ParseUsize(NatToString(n)) == Some(n)
  {
    DigitsValueOfNatToString(n);
  }
}
