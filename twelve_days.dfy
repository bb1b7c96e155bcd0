/**
 * The twelve_days_of_christmas program: twelve verses, each a heading naming
 * the day, then that day's present down to the first, then a blank line.
 *
 * `main` declares the two tables locally; the song is defined here for any
 * pair of tables of twelve lines, and the program's own tables are the
 * constants `ORDINALS` and `PRESENTS`.
 */
module TwelveDays {

  const DAYS: nat := 12

  /** The ordinals as the program spells them ("eight", not "eighth"). */
  const ORDINALS: seq<string> := [
    "first", "second", "third", "fourth", "fifth", "sixth", "seventh", "eight", "ninth",
    "tenth", "eleventh", "twelfth"
  ]

  const PRESENTS: seq<string> := [
    "A partridge in a pear tree",
    "Two turtledoves",
    "Three French hens",
    "Four calling birds",
    "Five gold rings (five golden rings)",
    "Six geese a-laying",
    "Seven swans a-swimming",
    "Eight maids a-milking",
    "Nine ladies dancing",
    "Ten lords a-leaping",
    "Eleven pipers piping",
    "Twelve drummers drumming"
  ]

  /** A table with one line per day. */
  predicate Table(lines: seq<string>) {
    |lines| == DAYS
  }

  /** The line that opens the verse of the day named `ordinal`. */
  function Heading(ordinal: string): string {
    "On the " + ordinal + " day of Christmas, my true love sent to me"
  }

  /** The first `m` presents listed on day `d`: `presents[d]` downwards. */
  function PresentsDown(presents: seq<string>, d: nat, m: nat): (lines: seq<string>)
    requires d < |presents| && m <= d + 1
    ensures |lines| == m
  {
    if m == 0 then [] else PresentsDown(presents, d, m - 1) + [presents[d + 1 - m]]
  }

  /** The verse of day `d`: its heading, `presents[d]` down to `presents[0]`, and a blank line. */
  function Verse(ordinals: seq<string>, presents: seq<string>, d: nat): (lines: seq<string>)
    requires Table(ordinals) && Table(presents) && d < DAYS
    ensures |lines| == d + 3
  {
    [Heading(ordinals[d])] + PresentsDown(presents, d, d + 1) + [""]
  }

  /** The lines of the first `n` verses. */
  function Song(ordinals: seq<string>, presents: seq<string>, n: nat): seq<string>
    requires Table(ordinals) && Table(presents) && n <= DAYS
  {
    if n == 0 then [] else Song(ordinals, presents, n - 1) + Verse(ordinals, presents, n - 1)
  }

  /**
   * `main`: the loop over the days and, inside it, the loop over
   * `(0..day_index + 1).rev()`. Every index stays within the two tables.
   */
  method Sing(ordinals: seq<string>, presents: seq<string>) returns (lines: seq<string>)
    requires Table(ordinals) && Table(presents)
    ensures lines == Song(ordinals, presents, DAYS)
  {
    lines := [];
    for dayIndex := 0 to DAYS
      invariant lines == Song(ordinals, presents, dayIndex)
    {
      var before := lines;
      lines := lines + [Heading(ordinals[dayIndex])];
      for presentIndex := dayIndex + 1 downto 0
        invariant lines == before + [Heading(ordinals[dayIndex])]
          + PresentsDown(presents, dayIndex, dayIndex + 1 - presentIndex)
      {
        lines := lines + [presents[presentIndex]];
      }
      lines := lines + [""];
    }
  }

  /** `PresentsDown` lists the presents from `presents[d]` downwards. */
  lemma {:induction false} PresentsDownAt(presents: seq<string>, d: nat, m: nat)
    requires d < |presents| && m <= d + 1
    ensures forall k :: 0 <= k < m ==> PresentsDown(presents, d, m)[k] == presents[d - k]
  {
    if m > 0 {
      PresentsDownAt(presents, d, m - 1);
    }
  }

  /**
   * Verse `d` has `d + 3` lines: the heading with the ordinal of the day,
   * `presents[d]` down to `presents[0]`, and a blank line.
   */
  lemma VerseShape(ordinals: seq<string>, presents: seq<string>, d: nat)
    requires Table(ordinals) && Table(presents) && d < DAYS
    ensures Verse(ordinals, presents, d)[0] == Heading(ordinals[d])
    ensures forall k :: 1 <= k <= d + 1 ==> Verse(ordinals, presents, d)[k] == presents[d + 1 - k]
    ensures Verse(ordinals, presents, d)[d + 2] == ""
  {
    PresentsDownAt(presents, d, d + 1);
  }

  /** The program's song: every verse ends with the partridge before its blank line. */
  lemma EveryVerseEndsWithPartridge(d: nat)
    requires d < DAYS
    ensures Verse(ORDINALS, PRESENTS, d)[d + 1] == "A partridge in a pear tree"
  {
    VerseShape(ORDINALS, PRESENTS, d);
  }

  /** The first `n` verses take `n * (n + 5) / 2` lines. */
  lemma {:induction false} SongLength(ordinals: seq<string>, presents: seq<string>, n: nat)
    requires Table(ordinals) && Table(presents) && n <= DAYS
    ensures 2 * |Song(ordinals, presents, n)| == n * (n + 5)
  {
    if n > 0 {
      SongLength(ordinals, presents, n - 1);
      assert (n - 1) * (n + 4) + 2 * (n + 2) == n * (n + 5);
    }
  }

  /** A prefix of `b` is a prefix of anything that extends `b`. */
  lemma PrefixOfConcat(a: seq<string>, b: seq<string>, c: seq<string>)
    requires a <= b
    ensures a <= b + c
  {
    assert (b + c)[..|b|] == b;
  }

  /** Verse `d` of the song comes right after the first `d` verses, in every longer song. */
  lemma {:induction false} VerseInSong(ordinals: seq<string>, presents: seq<string>, n: nat, d: nat)
    requires Table(ordinals) && Table(presents) && d < n <= DAYS
    ensures Song(ordinals, presents, d) + Verse(ordinals, presents, d) <= Song(ordinals, presents, n)
  {
    if d < n - 1 {
      VerseInSong(ordinals, presents, n - 1, d);
      PrefixOfConcat(Song(ordinals, presents, d) + Verse(ordinals, presents, d),
        Song(ordinals, presents, n - 1), Verse(ordinals, presents, n - 1));
    }
  }

  /** A line that opens a verse. */
  predicate IsHeading(line: string) {
    |line| >= 7 && line[..7] == "On the "
  }

  /** How many lines open a verse. */
  function Headings(lines: seq<string>): nat {
    if lines == [] then 0 else (if IsHeading(lines[0]) then 1 else 0) + Headings(lines[1..])
  }

  lemma {:induction false} HeadingsConcat(a: seq<string>, b: seq<string>)
    ensures Headings(a + b) == Headings(a) + Headings(b)
  {
    if a == [] {
      assert a + b == b;
    } else {
      assert (a + b)[1..] == a[1..] + b;
      HeadingsConcat(a[1..], b);
    }
  }

  lemma {:induction false} NoHeadings(lines: seq<string>)
    requires forall k :: 0 <= k < |lines| ==> !IsHeading(lines[k])
    ensures Headings(lines) == 0
  {
    if lines != [] {
      NoHeadings(lines[1..]);
    }
  }

  /** Every verse has exactly one heading when no present looks like one. */
  lemma OneHeadingPerVerse(ordinals: seq<string>, presents: seq<string>, d: nat)
    requires Table(ordinals) && Table(presents) && d < DAYS
    requires forall i :: 0 <= i < DAYS ==> !IsHeading(presents[i])
    ensures Headings(Verse(ordinals, presents, d)) == 1
  {
    var heading := Heading(ordinals[d]);
    var down := PresentsDown(presents, d, d + 1);
    assert heading[..7] == "On the ";
    HeadingsConcat([heading] + down, [""]);
    HeadingsConcat([heading], down);
    PresentsDownAt(presents, d, d + 1);
    NoHeadings(down);
  }

  /** The song has as many headings as verses. */
  lemma {:induction false} VerseCount(ordinals: seq<string>, presents: seq<string>, n: nat)
    requires Table(ordinals) && Table(presents) && n <= DAYS
    requires forall i :: 0 <= i < DAYS ==> !IsHeading(presents[i])
    ensures Headings(Song(ordinals, presents, n)) == n
  {
    if n > 0 {
      VerseCount(ordinals, presents, n - 1);
      HeadingsConcat(Song(ordinals, presents, n - 1), Verse(ordinals, presents, n - 1));
      OneHeadingPerVerse(ordinals, presents, n - 1);
    }
  }

  /** No present of the program opens a verse: none starts with an `O`. */
  lemma NoPresentIsHeading(i: nat)
    requires i < DAYS
    ensures !IsHeading(PRESENTS[i])
  {
    assert PRESENTS[i][0] != 'O';
    assert PRESENTS[i][..7][0] == PRESENTS[i][0];
  }

  /** The program prints exactly twelve verses. */
  lemma TwelveVerses()
    ensures Table(ORDINALS) && Table(PRESENTS)
    ensures Headings(Song(ORDINALS, PRESENTS, DAYS)) == 12
  {
    forall i | 0 <= i < DAYS
      ensures !IsHeading(PRESENTS[i])
    {
      NoPresentIsHeading(i);
    }
    VerseCount(ORDINALS, PRESENTS, DAYS);
  }
}
