/**
 * pig_latin: every whitespace-separated word of a text is rewritten (a word
 * that starts with a vowel gets `-hay` appended; any other word has its
 * first character moved to the end followed by `-ay`) and the new words are
 * joined with single spaces.
 *
 * The vowel test is the regular expression `(?i)^[aeiou]`. Rust slices the
 * word by bytes (`word[1..]`, `word[..1]`), which panics unless the first
 * character is one byte long; that is the precondition of the rewrite.
 */
module PigLatin {
  import opened RustStr

  /** The text the program rewrites. */
  const TEXT: string := "this is a random text to obtain some results"

  /** `(?i)^[aeiou]`. */
  predicate StartsWithVowel(w: string) {
    |w| > 0 && w[0] in "aeiouAEIOU"
  }

  /** A word the rewrite accepts: non-empty, and sliced only when its first character is one byte. */
  predicate Rewritable(w: string) {
    w != [] && (StartsWithVowel(w) || w[0] as int < 0x80)
  }

  /** The new word the loop pushes for `w`. */
  function PigWord(w: string): string
    requires Rewritable(w)
  {
    if StartsWithVowel(w) then w + "-hay" else w[1..] + w[..1] + "-ay"
  }

  /** Reading a rewritten word back: `-hay` marks a vowel word, otherwise the moved character sits before `-ay`. */
  function FromPig(p: string): string {
    if |p| >= 4 && p[|p| - 4..] == "-hay" then p[..|p| - 4]
    else if |p| >= 4 then [p[|p| - 4]] + p[..|p| - 4]
    else p
  }

  /** The rewrite loses nothing: every rewritten word reads back as the original. */
  lemma PigWordRoundTrip(w: string)
    requires Rewritable(w)
    ensures FromPig(PigWord(w)) == w
  {
    var p := PigWord(w);
    if StartsWithVowel(w) {
      assert p[..|w|] == w && p[|w|..] == "-hay";
    } else {
      assert p[|p| - 4..] == [w[0]] + "-ay";
      assert p[|p| - 4..][1] == '-';
      assert p[..|p| - 4] == w[1..];
      assert w == [w[0]] + w[1..];
    }
  }

  // ---------------------------------------------------------------------
  // Lengths in bytes
  // ---------------------------------------------------------------------

  /** The number of bytes UTF-8 spends on `c`. */
  function Utf8Width(c: char): nat {
    if c as int < 0x80 then 1
    else if c as int < 0x800 then 2
    else if c as int < 0x10000 then 3
    else 4
  }

  /** The length of a Rust `String`, which counts bytes. */
  function ByteLength(s: string): nat {
    if s == [] then 0 else Utf8Width(s[0]) + ByteLength(s[1..])
  }

  lemma {:induction false} ByteLengthConcat(a: string, b: string)
    ensures ByteLength(a + b) == ByteLength(a) + ByteLength(b)
  {
    if a == [] {
      assert a + b == b;
    } else {
      assert (a + b)[1..] == a[1..] + b;
      ByteLengthConcat(a[1..], b);
    }
  }

  /** A rewritten word is four bytes longer (vowel) or three bytes longer (other). */
  lemma PigWordBytes(w: string)
    requires Rewritable(w)
    ensures ByteLength(PigWord(w)) == ByteLength(w) + (if StartsWithVowel(w) then 4 else 3)
  {
    assert ByteLength("-hay") == 4 && ByteLength("-ay") == 3;
    if StartsWithVowel(w) {
      ByteLengthConcat(w, "-hay");
    } else {
      ByteLengthConcat(w[1..], w[..1]);
      ByteLengthConcat(w[1..] + w[..1], "-ay");
      ByteLengthConcat(w[..1], w[1..]);
      assert w == w[..1] + w[1..];
    }
  }

  // ---------------------------------------------------------------------
  // The whole text
  // ---------------------------------------------------------------------

  /** The rewritten words, one per word and in the same order. */
  function PigWords(ws: seq<string>): (ps: seq<string>)
    requires forall k :: 0 <= k < |ws| ==> Rewritable(ws[k])
    ensures |ps| == |ws|
    ensures forall k :: 0 <= k < |ws| ==> ps[k] == PigWord(ws[k])
  {
    seq(|ws|, k requires 0 <= k < |ws| => PigWord(ws[k]))
  }

  /** Every word of the text can be rewritten. */
  predicate RewritableText(text: string) {
    forall k :: 0 <= k < |Words(text)| ==> Rewritable(Words(text)[k])
  }

  /** Every word of an ASCII text starts with a one-byte character. */
  lemma {:induction false} AsciiWords(s: string)
    requires forall i :: 0 <= i < |s| ==> s[i] as int < 0x80
    ensures forall k :: 0 <= k < |Words(s)| ==> Words(s)[k][0] as int < 0x80
  {
    if s != [] {
      if IsWhitespace(s[0]) {
        AsciiWords(s[1..]);
      } else {
        var n := WordLength(s);
        AsciiWords(s[n..]);
        assert Words(s) == [s[..n]] + Words(s[n..]);
      }
    }
  }

  /** The program's own text can be rewritten: `main` does not panic. */
  lemma TextIsRewritable()
    ensures RewritableText(TEXT)
  {
    assert forall i :: 0 <= i < |TEXT| ==> TEXT[i] as int < 0x80;
    AsciiWords(TEXT);
  }

  /** `main`'s loop and join, for any text whose words can be rewritten. */
  method Translate(text: string) returns (result: string)
    requires RewritableText(text)
    ensures result == Join(PigWords(Words(text)), " ")
  {
    var input := Words(text);
    var words: seq<string> := [];
    for i := 0 to |input|
      invariant words == PigWords(input[..i])
    {
      var word := input[i];
      var newWord: string;
      if StartsWithVowel(word) {
        newWord := word + "-hay";
      } else {
        newWord := word[1..] + word[..1] + "-ay";
      }
      words := words + [newWord];
    }
    assert input[..|input|] == input;
    result := Join(words, " ");
  }

  /** A rewritten word has no whitespace in it. */
  lemma PigWordIsWord(w: string)
    requires Rewritable(w) && IsWord(w)
    ensures IsWord(PigWord(w))
  {
    var p := PigWord(w);
    forall i | 0 <= i < |p|
      ensures !IsWhitespace(p[i])
    {
      if !StartsWithVowel(w) && i < |w| - 1 {
        assert p[i] == w[i + 1];
      } else if !StartsWithVowel(w) && i == |w| - 1 {
        assert p[i] == w[0];
      }
    }
  }

  /**
   * Splitting the result on whitespace gives one rewritten word per word of
   * the text, in order, and reading them back gives the words of the text.
   */
  lemma TranslationWords(text: string)
    requires RewritableText(text)
    ensures Words(Join(PigWords(Words(text)), " ")) == PigWords(Words(text))
    ensures var back := Words(Join(PigWords(Words(text)), " "));
      forall k :: 0 <= k < |back| ==> FromPig(back[k]) == Words(text)[k]
  {
    var ws := Words(text);
    var ps := PigWords(ws);
    forall k | 0 <= k < |ps|
      ensures IsWord(ps[k]) && FromPig(ps[k]) == ws[k]
    {
      PigWordIsWord(ws[k]);
      PigWordRoundTrip(ws[k]);
    }
    WordsOfJoin(ps);
  }
}
