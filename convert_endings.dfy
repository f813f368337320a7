/** The string functions of the `convert-endings.js` script.

    The script lists the repository's TypeScript files, splits that listing
    into file names (`split('\n').filter(Boolean)`), and rewrites each file
    with every CRLF pair replaced by a single LF (`replace(/\r\n/g, '\n')`).
    Running the listing command and reading and writing the files are I/O
    and are not part of this module; the two string functions are. */
module ConvertEndings {

  // ---- Splitting the listing into file names ----

  /** JavaScript's `s.split(sep)` for a one-character separator: the maximal
      separator-free pieces, in order.  There is always at least one piece, and
      an empty input gives one empty piece. */
  function SplitOn(s: string, sep: char): (r: seq<string>)
    ensures |r| >= 1
    ensures forall p <- r :: sep !in p
    decreases |s|
  {
    if s == [] then [""]
    else
      var rest := SplitOn(s[1..], sep);
      if s[0] == sep then [""] + rest
      else [[s[0]] + rest[0]] + rest[1..]
  }

  /** There is one more piece than there are separators. */
  lemma {:induction false} SplitCount(s: string, sep: char)
    ensures |SplitOn(s, sep)| == multiset(s)[sep] + 1
    decreases |s|
  {
    if s != [] {
      SplitCount(s[1..], sep);
      assert s == [s[0]] + s[1..];
    }
  }

  /** The inverse of splitting: the pieces glued back with the separator between them. */
  function Join(pieces: seq<string>, sep: char): string
    requires |pieces| >= 1
  {
    if |pieces| == 1 then pieces[0] else pieces[0] + [sep] + Join(pieces[1..], sep)
  }

  /** Prepending a character to the first piece prepends it to the joined text. */
  lemma JoinConsFirst(c: char, pieces: seq<string>, sep: char)
    requires |pieces| >= 1
    ensures Join([[c] + pieces[0]] + pieces[1..], sep) == [c] + Join(pieces, sep)
  {
  }

  /** Splitting loses nothing: joining the pieces gives the input back. */
  lemma {:induction false} JoinSplit(s: string, sep: char)
    ensures Join(SplitOn(s, sep), sep) == s
    decreases |s|
  {
    if s != [] {
      var rest := SplitOn(s[1..], sep);
      var r := SplitOn(s, sep);
      JoinSplit(s[1..], sep);
      assert Join(rest, sep) == s[1..];
      if s[0] == sep {
        assert r == [""] + rest;
        assert r[1..] == rest;
        calc {
          Join(r, sep);
          r[0] + [sep] + Join(r[1..], sep);
          [sep] + s[1..];
        }
      } else {
        assert r == [[s[0]] + rest[0]] + rest[1..];
        JoinConsFirst(s[0], rest, sep);
      }
      assert [s[0]] + s[1..] == s;
    }
  }

  /** A separator-free prefix followed by a separator is split off as one piece. */
  lemma {:induction false} SplitAfterLine(a: string, b: string, sep: char)
    requires sep !in a
    ensures SplitOn(a + [sep] + b, sep) == [a] + SplitOn(b, sep)
    decreases |a|
  {
    var s := a + [sep] + b;
    if a == [] {
      assert s[1..] == b;
    } else {
      assert s[1..] == a[1..] + [sep] + b;
      SplitAfterLine(a[1..], b, sep);
      assert [a[0]] + a[1..] == a;
    }
  }

  /** `filter(Boolean)` on strings: the non-empty ones, in their original order. */
  function NonEmpty(pieces: seq<string>): (r: seq<string>)
    ensures |r| <= |pieces|
    ensures forall i :: 0 <= i < |r| ==> r[i] != ""
    ensures forall x :: x in r <==> x in pieces && x != ""
  {
    if pieces == [] then []
    else if pieces[0] == "" then NonEmpty(pieces[1..])
    else [pieces[0]] + NonEmpty(pieces[1..])
  }

  /** Filtering keeps the relative order: it distributes over concatenation. */
  lemma {:induction false} NonEmptyAppend(a: seq<string>, b: seq<string>)
    ensures NonEmpty(a + b) == NonEmpty(a) + NonEmpty(b)
  {
    if a == [] {
      assert a + b == b;
    } else {
      assert (a + b)[0] == a[0];
      assert (a + b)[1..] == a[1..] + b;
      NonEmptyAppend(a[1..], b);
    }
  }

  /** Filtering removes every empty string and keeps every other string as often as it occurs. */
  lemma {:induction false} NonEmptyCounts(pieces: seq<string>, x: string)
    ensures multiset(NonEmpty(pieces))[x] == if x == "" then 0 else multiset(pieces)[x]
  {
    if pieces != [] {
      NonEmptyCounts(pieces[1..], x);
      assert pieces == [pieces[0]] + pieces[1..];
    }
  }

  /** The file list built from the output of the listing command. */
  function FileList(listing: string): (files: seq<string>)
    ensures |files| <= multiset(listing)['\n'] + 1
    ensures forall i :: 0 <= i < |files| ==> files[i] != "" && '\n' !in files[i]
  {
    SplitCount(listing, '\n');
    NonEmpty(SplitOn(listing, '\n'))
  }

  /** What the listing command prints: every name followed by a line break. */
  function Terminated(names: seq<string>): string
  {
    if names == [] then "" else names[0] + "\n" + Terminated(names[1..])
  }

  /** Reading back a listing of non-empty, single-line names gives exactly those names, in order. */
  lemma {:induction false} FileListOfListing(names: seq<string>)
    requires forall i :: 0 <= i < |names| ==> names[i] != "" && '\n' !in names[i]
    ensures FileList(Terminated(names)) == names
  {
    if names != [] {
      SplitAfterLine(names[0], Terminated(names[1..]), '\n');
      FileListOfListing(names[1..]);
      NonEmptyAppend([names[0]], SplitOn(Terminated(names[1..]), '\n'));
    }
  }

  // ---- Replacing CRLF by LF ----

  /** `s.replace(/\r\n/g, '\n')`: one left-to-right pass; a matched pair is consumed whole. */
  function ReplaceCrlf(s: string): (r: string)
    ensures |r| <= |s|
  {
    if |s| < 2 then s
    else if s[0] == '\r' && s[1] == '\n' then "\n" + ReplaceCrlf(s[2..])
    else [s[0]] + ReplaceCrlf(s[1..])
  }

  /** Whether `s` has a carriage return at index 0 that is immediately followed by a line feed. */
  predicate CrlfAt0(s: string)
  {
    |s| >= 2 && s[0] == '\r' && s[1] == '\n'
  }

  /** Reference definition: keep every character except a carriage return that
      immediately precedes a line feed. */
  function DropCrBeforeLf(s: string): string
  {
    if s == [] then []
    else (if CrlfAt0(s) then [] else [s[0]]) + DropCrBeforeLf(s[1..])
  }

  /** The number of positions at which "\r\n" starts. */
  function CountCrlf(s: string): nat
  {
    if s == [] then 0 else (if CrlfAt0(s) then 1 else 0) + CountCrlf(s[1..])
  }

  /** `pat` occurs somewhere in `s`. */
  predicate Occurs(pat: string, s: string)
    decreases |s|
  {
    |pat| <= |s| && (s[..|pat|] == pat || (s != [] && Occurs(pat, s[1..])))
  }

  /** The single pass removes exactly the carriage returns that precede a line feed:
      no pair is missed, since two "\r\n" pairs can never overlap. */
  lemma {:induction false} ReplaceIsDrop(s: string)
    ensures ReplaceCrlf(s) == DropCrBeforeLf(s)
    decreases |s|
  {
    if |s| < 2 {
      if |s| == 1 {
        assert DropCrBeforeLf(s) == [s[0]] + DropCrBeforeLf(s[1..]);
        assert s == [s[0]];
      }
    } else if CrlfAt0(s) {
      ReplaceIsDrop(s[2..]);
      assert s[1..][1..] == s[2..];
      assert !CrlfAt0(s[1..]);
    } else {
      ReplaceIsDrop(s[1..]);
    }
  }

  /** The output is shorter than the input by the number of CRLF pairs. */
  lemma {:induction false} ReplaceLength(s: string)
    ensures |ReplaceCrlf(s)| == |s| - CountCrlf(s)
  {
    ReplaceIsDrop(s);
    DropLength(s);
  }

  lemma {:induction false} DropLength(s: string)
    ensures |DropCrBeforeLf(s)| == |s| - CountCrlf(s)
  {
    if s != [] {
      DropLength(s[1..]);
    }
  }

  /** Only carriage returns are removed, one per CRLF pair; every other character,
      the line feed included, occurs as often in the output as in the input. */
  lemma {:induction false} ReplaceCounts(s: string, c: char)
    ensures multiset(ReplaceCrlf(s))[c] == if c == '\r' then multiset(s)[c] - CountCrlf(s) else multiset(s)[c]
  {
    ReplaceIsDrop(s);
    DropCounts(s, c);
  }

  lemma {:induction false} DropCounts(s: string, c: char)
    ensures multiset(DropCrBeforeLf(s))[c] == if c == '\r' then multiset(s)[c] - CountCrlf(s) else multiset(s)[c]
  {
    if s != [] {
      DropCounts(s[1..], c);
      assert s == [s[0]] + s[1..];
    }
  }

  /** The line-feed count is preserved. */
  lemma ReplaceKeepsLineFeeds(s: string)
    ensures multiset(ReplaceCrlf(s))['\n'] == multiset(s)['\n']
  {
    ReplaceCounts(s, '\n');
  }

  /** Unfolding `Occurs` for the pattern "\r\n" at the front of a string. */
  lemma OccursCrlfStep(s: string)
    requires s != []
    ensures Occurs("\r\n", s) <==> CrlfAt0(s) || Occurs("\r\n", s[1..])
  {
  }

  /** Unfolding `Occurs` for the pattern "\r\r\n" at the front of a string. */
  lemma OccursCrCrlfStep(s: string)
    requires s != []
    ensures Occurs("\r\r\n", s) <==> (s[0] == '\r' && CrlfAt0(s[1..])) || Occurs("\r\r\n", s[1..])
  {
  }

  /** A string has no "\r\n" exactly when it has no CRLF position. */
  lemma {:induction false} NoCrlfIffZeroCount(s: string)
    ensures Occurs("\r\n", s) <==> CountCrlf(s) > 0
  {
    if s != [] {
      OccursCrlfStep(s);
      NoCrlfIffZeroCount(s[1..]);
    }
  }

  /** The replacement changes a string exactly when it contains "\r\n". */
  lemma {:induction false} ReplaceUnchangedIff(s: string)
    ensures ReplaceCrlf(s) == s <==> !Occurs("\r\n", s)
  {
    ReplaceLength(s);
    NoCrlfIffZeroCount(s);
    if !Occurs("\r\n", s) {
      ReplaceIsDrop(s);
      DropIdentity(s);
    }
  }

  lemma {:induction false} DropIdentity(s: string)
    requires CountCrlf(s) == 0
    ensures DropCrBeforeLf(s) == s
  {
    if s != [] {
      DropIdentity(s[1..]);
      assert s == [s[0]] + s[1..];
    }
  }

  /** The first character of the output is a line feed exactly when the input starts
      with a line feed or with "\r\n". */
  lemma ReplaceHead(t: string)
    ensures (ReplaceCrlf(t) != [] && ReplaceCrlf(t)[0] == '\n') <==> (t != [] && t[0] == '\n') || CrlfAt0(t)
    ensures ReplaceCrlf(t) != [] <==> t != []
  {
  }

  /** The output still contains "\r\n" exactly when the input contains "\r\r\n":
      the pass rewrites "\r\r\n" to "\r\n" and never looks back. */
  lemma {:induction false} ReplaceLeavesCrlfIff(s: string)
    ensures Occurs("\r\n", ReplaceCrlf(s)) <==> Occurs("\r\r\n", s)
    decreases |s|
  {
    var r := ReplaceCrlf(s);
    if |s| < 2 {
      assert !Occurs("\r\n", s) by { if s != [] { OccursCrlfStep(s); } }
      assert !Occurs("\r\r\n", s);
    } else if CrlfAt0(s) {
      var t := s[2..];
      ReplaceLeavesCrlfIff(t);
      assert r[1..] == ReplaceCrlf(t);
      OccursCrlfStep(r);
      OccursCrCrlfStep(s);
      OccursCrCrlfStep(s[1..]);
      assert s[1..][1..] == t;
    } else {
      var t := s[1..];
      ReplaceLeavesCrlfIff(t);
      assert r[1..] == ReplaceCrlf(t);
      OccursCrlfStep(r);
      OccursCrCrlfStep(s);
      ReplaceHead(t);
      if s[0] == '\r' {
        assert CrlfAt0(r) <==> CrlfAt0(t);
      } else {
        assert !CrlfAt0(r);
      }
    }
  }

  /** Applying the pass twice gives the same as once exactly when the input has no "\r\r\n". */
  lemma {:induction false} ReplaceIdempotentIff(s: string)
    ensures ReplaceCrlf(ReplaceCrlf(s)) == ReplaceCrlf(s) <==> !Occurs("\r\r\n", s)
  {
    ReplaceUnchangedIff(ReplaceCrlf(s));
    ReplaceLeavesCrlfIff(s);
  }

  /** The pass is not idempotent: "\r\r\n" becomes "\r\n", which a second pass turns into "\n". */
  lemma NotIdempotentExample()
    ensures ReplaceCrlf("\r\r\n") == "\r\n"
    ensures ReplaceCrlf(ReplaceCrlf("\r\r\n")) == "\n"
  {
  }
}
