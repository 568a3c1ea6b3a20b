/** Character-level text handling: counting and locating newlines in the
    price-list stream, and splitting text into lines and comma-separated
    fields. The splitting functions stand in for the row splitter of Python's
    csv module on unquoted text. */
module Text {

  /** One parsed csv record: its fields in order. */
  type Row = seq<string>

  /** A prefix one longer is the shorter prefix and one more element. */
  lemma TakeSnoc<T>(a: seq<T>, k: nat)
    requires 0 < k <= |a|
    ensures a[..k] == a[..k - 1] + [a[k - 1]]
  {
  }

  /** A slice one longer is the shorter slice and one more element. */
  lemma SliceSnoc<T>(a: seq<T>, i: nat, j: nat)
    requires i <= j < |a|
    ensures a[i..j + 1] == a[i..j] + [a[j]]
  {
  }

  /** Adjacent slices join into one. */
  lemma SliceConcat<T>(a: seq<T>, i: nat, j: nat, k: nat)
    requires i <= j <= k <= |a|
    ensures a[i..k] == a[i..j] + a[j..k]
  {
  }

  /** The head and tail of an element put in front of a sequence. */
  lemma ConsParts<T>(x: T, r: seq<T>)
    ensures ([x] + r)[0] == x && ([x] + r)[1..] == r
  {
  }

  /** A sequence is what comes before index n, the element at n, and what
      comes after it. */
  lemma SplitAround<T>(a: seq<T>, n: nat)
    requires n < |a|
    ensures a == a[..n] + [a[n]] + a[n + 1..]
  {
  }

  /** Number of newline characters in s. */
  function CountNewlines(s: string): nat
  {
    if s == [] then 0 else (if s[0] == '\n' then 1 else 0) + CountNewlines(s[1..])
  }

  lemma {:induction false} CountNewlinesAppend(a: string, b: string)
    ensures CountNewlines(a + b) == CountNewlines(a) + CountNewlines(b)
  {
    if a == [] {
      assert a + b == b;
    } else {
      assert (a + b)[1..] == a[1..] + b;
      CountNewlinesAppend(a[1..], b);
    }
  }

  lemma CountNewlinesSplit(s: string, p: nat, e: nat)
    requires p <= e <= |s|
    ensures CountNewlines(s[p..]) == CountNewlines(s[p..e]) + CountNewlines(s[e..])
  {
    assert s[p..] == s[p..e] + s[e..];
    CountNewlinesAppend(s[p..e], s[e..]);
  }

  lemma {:induction false} NoNewlineCount(s: string)
    requires '\n' !in s
    ensures CountNewlines(s) == 0
  {
    if s != [] {
      assert s[1..] == s[1..];
      assert forall c :: c in s[1..] ==> c in s;
      NoNewlineCount(s[1..]);
    }
  }

  lemma CountNewlinesStep(s: string, p: nat)
    requires p < |s|
    ensures CountNewlines(s[p..]) == (if s[p] == '\n' then 1 else 0) + CountNewlines(s[p + 1..])
  {
    assert s[p..][1..] == s[p + 1..];
  }

  /** The position just past the first newline at or after p: where a reader
      that takes one character at a time, starting at p, stops once it has
      taken a newline. */
  function LineEnd(s: string, p: nat): (e: nat)
    requires p <= |s| && CountNewlines(s[p..]) > 0
    ensures p < e <= |s| && s[e - 1] == '\n'
    ensures CountNewlines(s[e..]) == CountNewlines(s[p..]) - 1
    decreases |s| - p
  {
    assert s[p..] != [];
    assert s[p..][1..] == s[p + 1..];
    if s[p] == '\n' then p + 1 else LineEnd(s, p + 1)
  }

  /** Reading one character that is not a newline leaves the line end
      where it was; reading a newline ends the line. */
  lemma LineEndStep(s: string, p: nat)
    requires p < |s| && CountNewlines(s[p..]) > 0
    ensures s[p] != '\n' ==> CountNewlines(s[p + 1..]) > 0 && LineEnd(s, p + 1) == LineEnd(s, p)
    ensures s[p] == '\n' ==> LineEnd(s, p) == p + 1
  {
    CountNewlinesStep(s, p);
  }

  /** LineEnd stops at the first newline: given a newline at m and none in
      [p, m), the line ends just past m. */
  lemma {:induction false} LineEndAt(s: string, p: nat, m: nat)
    requires p <= m < |s| && s[m] == '\n' && '\n' !in s[p..m]
    ensures CountNewlines(s[p..]) > 0 && LineEnd(s, p) == m + 1
    decreases m - p
  {
    CountNewlinesSplit(s, p, m);
    CountNewlinesStep(s, m);
    if p < m {
      assert s[p] == s[p..m][0];
      assert s[p + 1..m] == s[p..m][1..];
      LineEndAt(s, p + 1, m);
    }
  }

  /** The position just past the k-th newline at or after p. */
  function LinesEnd(s: string, p: nat, k: nat): (e: nat)
    requires p <= |s| && CountNewlines(s[p..]) >= k
    ensures p <= e <= |s|
    ensures CountNewlines(s[e..]) == CountNewlines(s[p..]) - k
    ensures k > 0 ==> p < e && s[e - 1] == '\n'
  {
    if k == 0 then p else LineEnd(s, LinesEnd(s, p, k - 1))
  }

  /** The text from p to LinesEnd(s, p, k) holds exactly k newlines and, when
      k > 0, ends with one: it is the shortest prefix holding k lines. */
  lemma LinesEndPrefix(s: string, p: nat, k: nat)
    requires p <= |s| && CountNewlines(s[p..]) >= k
    ensures CountNewlines(s[p..LinesEnd(s, p, k)]) == k
    ensures k > 0 ==> s[p..LinesEnd(s, p, k)][LinesEnd(s, p, k) - p - 1] == '\n'
  {
    CountNewlinesSplit(s, p, LinesEnd(s, p, k));
  }

  /** Index of the first c in s, or |s| when s has none: the length of the longest prefix without c. */
  function IndexOf(s: string, c: char): (n: nat)
    ensures n <= |s| && c !in s[..n]
    ensures n < |s| ==> s[n] == c
  {
    if s == [] || s[0] == c then 0
    else
      var r := IndexOf(s[1..], c);
      assert s[..1 + r] == [s[0]] + s[1..][..r];
      1 + r
  }

  /** Text ending in c has its first c before its end. */
  lemma IndexOfBeforeLast(s: string, c: char)
    requires s != [] && s[|s| - 1] == c
    ensures IndexOf(s, c) < |s|
  {
    assert s[..|s|] == s;
  }

  /** IndexOf stops at the first c: given c at m, or m at the end, and no c
      before m, the index is m. */
  lemma {:induction false} IndexOfAt(s: string, c: char, m: nat)
    requires m <= |s| && c !in s[..m] && (m < |s| ==> s[m] == c)
    ensures IndexOf(s, c) == m
  {
    if m > 0 {
      assert s[0] == s[..m][0];
      assert s[1..][..m - 1] == s[..m][1..];
      IndexOfAt(s[1..], c, m - 1);
    }
  }

  /** The lines of s: every newline ends a line, and a last piece that has no
      newline is a line too. */
  function SplitLines(s: string): (lines: seq<string>)
    decreases |s|
  {
    if s == [] then []
    else
      var n := IndexOf(s, '\n');
      [s[..n]] + (if n == |s| then [] else SplitLines(s[n + 1..]))
  }

  /** No line holds a newline. */
  lemma {:induction false} SplitLinesParts(s: string)
    ensures forall i :: 0 <= i < |SplitLines(s)| ==> '\n' !in SplitLines(s)[i]
    decreases |s|
  {
    if s != [] {
      var n := IndexOf(s, '\n');
      if n < |s| {
        SplitLinesParts(s[n + 1..]);
      }
    }
  }

  /** Writes each line followed by a newline. */
  function JoinLines(lines: seq<string>): string
  {
    if lines == [] then [] else lines[0] + "\n" + JoinLines(lines[1..])
  }

  lemma {:induction false} JoinLinesAppend(a: seq<string>, b: seq<string>)
    ensures JoinLines(a + b) == JoinLines(a) + JoinLines(b)
  {
    if a == [] {
      assert a + b == b;
    } else {
      assert (a + b)[1..] == a[1..] + b;
      JoinLinesAppend(a[1..], b);
    }
  }

  /** Text that is empty or ends with a newline is exactly its lines, each
      followed by a newline. */
  lemma {:induction false} JoinSplitLines(s: string)
    requires s == [] || s[|s| - 1] == '\n'
    ensures JoinLines(SplitLines(s)) == s
    decreases |s|
  {
    if s != [] {
      var n := IndexOf(s, '\n');
      IndexOfBeforeLast(s, '\n');
      var line, rest := s[..n], s[n + 1..];
      ConsParts(line, SplitLines(rest));
      JoinSplitLines(rest);
      SplitAround(s, n);
    }
  }

  /** Text that is empty or ends with a newline has one line per newline. */
  lemma {:induction false} SplitLinesCount(s: string)
    requires s == [] || s[|s| - 1] == '\n'
    ensures |SplitLines(s)| == CountNewlines(s)
    decreases |s|
  {
    if s != [] {
      var n := IndexOf(s, '\n');
      IndexOfBeforeLast(s, '\n');
      var line, rest := s[..n], s[n + 1..];
      SplitLinesCount(rest);
      NoNewlineCount(line);
      SplitAround(s, n);
      CountNewlinesAppend(line + "\n", rest);
      CountNewlinesAppend(line, "\n");
      assert CountNewlines("\n") == 1 by {
        assert "\n"[1..] == [];
      }
    }
  }

  /** Lines without newlines come back unchanged from joining and splitting. */
  lemma {:induction false} SplitJoinLines(lines: seq<string>)
    requires forall i :: 0 <= i < |lines| ==> '\n' !in lines[i]
    ensures SplitLines(JoinLines(lines)) == lines
  {
    if lines != [] {
      var s := JoinLines(lines);
      var l := lines[0];
      var rest := JoinLines(lines[1..]);
      assert s == l + "\n" + rest;
      assert s[..|l|] == l;
      IndexOfAt(s, '\n', |l|);
      assert s[|l| + 1..] == rest;
      SplitJoinLines(lines[1..]);
    }
  }

  /** The pieces of s between occurrences of d; always at least one. */
  function SplitOn(s: string, d: char): (parts: seq<string>)
    ensures |parts| > 0
    decreases |s|
  {
    var n := IndexOf(s, d);
    if n == |s| then [s] else [s[..n]] + SplitOn(s[n + 1..], d)
  }

  /** No part holds the delimiter. */
  lemma {:induction false} SplitOnParts(s: string, d: char)
    ensures forall i :: 0 <= i < |SplitOn(s, d)| ==> d !in SplitOn(s, d)[i]
    decreases |s|
  {
    var n := IndexOf(s, d);
    if n < |s| {
      SplitOnParts(s[n + 1..], d);
    }
  }

  /** The pieces written out with d between them. */
  function JoinOn(parts: seq<string>, d: char): string
    requires |parts| > 0
  {
    if |parts| == 1 then parts[0] else parts[0] + [d] + JoinOn(parts[1..], d)
  }

  lemma {:induction false} JoinSplitOn(s: string, d: char)
    ensures JoinOn(SplitOn(s, d), d) == s
    decreases |s|
  {
    var n := IndexOf(s, d);
    if n < |s| {
      JoinSplitOn(s[n + 1..], d);
      ConsParts(s[..n], SplitOn(s[n + 1..], d));
      SplitAround(s, n);
    }
  }

  lemma {:induction false} SplitJoinOn(parts: seq<string>, d: char)
    requires |parts| > 0
    requires forall i :: 0 <= i < |parts| ==> d !in parts[i]
    ensures SplitOn(JoinOn(parts, d), d) == parts
  {
    if |parts| > 1 {
      JoinOnHead(parts, d);
      assert forall i :: 0 <= i < |parts| - 1 ==> parts[1..][i] == parts[i + 1];
      SplitJoinOn(parts[1..], d);
      ConsParts(parts[0], parts[1..]);
    }
  }

  /** In pieces written out with d between them, the first d ends the first
      piece and the rest is the other pieces written out. */
  lemma JoinOnHead(parts: seq<string>, d: char)
    requires |parts| > 1 && d !in parts[0]
    ensures var s, l := JoinOn(parts, d), parts[0];
      && IndexOf(s, d) == |l| && |l| < |s| && s[..|l|] == l && s[|l| + 1..] == JoinOn(parts[1..], d)
  {
    var s, l := JoinOn(parts, d), parts[0];
    var rest := JoinOn(parts[1..], d);
    assert s == l + [d] + rest;
    assert s[..|l|] == l;
    IndexOfAt(s, d, |l|);
    assert s[|l| + 1..] == rest;
  }

  /** The fields of one line. A blank line has no fields, as Python's
      csv.reader yields an empty row for it. */
  function Fields(line: string): Row
  {
    if line == [] then [] else SplitOn(line, ',')
  }

  /** Fields and the comma join are inverse on non-blank lines. */
  lemma FieldsRoundTrip(line: string)
    requires line != []
    ensures |Fields(line)| > 0 && JoinOn(Fields(line), ',') == line
  {
    JoinSplitOn(line, ',');
  }

  /** The fields of each line. */
  function FieldsOf(lines: seq<string>): seq<Row>
  {
    seq(|lines|, i requires 0 <= i < |lines| => Fields(lines[i]))
  }

  /** The rows of comma-separated text: one row per line. */
  function Records(text: string): seq<Row>
  {
    FieldsOf(SplitLines(text))
  }

  /** Lines written out one after another are read back as one row each. */
  lemma RecordsOfLines(lines: seq<string>)
    requires forall i :: 0 <= i < |lines| ==> '\n' !in lines[i]
    ensures Records(JoinLines(lines)) == FieldsOf(lines)
  {
    SplitJoinLines(lines);
  }

  /** Written-out lines, cut where the first k of them end, parse as the
      records of those k lines and the records of the rest. */
  lemma RecordsSplitAt(lines: seq<string>, k: nat)
    requires k <= |lines|
    requires forall i :: 0 <= i < |lines| ==> '\n' !in lines[i]
    ensures CountNewlines(JoinLines(lines)) == |lines|
    ensures var s := JoinLines(lines);
      && Records(s[..LinesEnd(s, 0, k)]) == FieldsOf(lines[..k])
      && Records(s[LinesEnd(s, 0, k)..]) == FieldsOf(lines[k..])
  {
    LinesEndOfLines(lines, k);
    JoinLinesSplitAt(lines, k);
    NoNewlinesSlices(lines, k);
    RecordsOfLines(lines[..k]);
    RecordsOfLines(lines[k..]);
  }

  /** Lines free of newlines stay so when cut in two. */
  lemma NoNewlinesSlices(lines: seq<string>, n: nat)
    requires n <= |lines|
    requires forall i :: 0 <= i < |lines| ==> '\n' !in lines[i]
    ensures forall i :: 0 <= i < n ==> '\n' !in lines[..n][i]
    ensures forall i :: 0 <= i < |lines| - n ==> '\n' !in lines[n..][i]
  {
  }

  lemma {:induction false} JoinLinesCount(lines: seq<string>)
    requires forall i :: 0 <= i < |lines| ==> '\n' !in lines[i]
    ensures CountNewlines(JoinLines(lines)) == |lines|
  {
    if lines != [] {
      JoinLinesCount(lines[1..]);
      NoNewlineCount(lines[0]);
      CountNewlinesAppend(lines[0] + "\n", JoinLines(lines[1..]));
      CountNewlinesAppend(lines[0], "\n");
      assert CountNewlines("\n") == 1 by {
        assert "\n"[1..] == [];
      }
    }
  }

  /** Written-out lines, cut where the first k of them end, give those k
      lines written out and the rest written out. */
  lemma JoinLinesSplitAt(lines: seq<string>, k: nat)
    requires k <= |lines|
    ensures |JoinLines(lines[..k])| <= |JoinLines(lines)|
    ensures JoinLines(lines)[..|JoinLines(lines[..k])|] == JoinLines(lines[..k])
    ensures JoinLines(lines)[|JoinLines(lines[..k])|..] == JoinLines(lines[k..])
  {
    assert lines == lines[..k] + lines[k..];
    JoinLinesAppend(lines[..k], lines[k..]);
  }

  /** A line starting at p in s, followed by a newline. */
  lemma LineAt(s: string, p: nat, line: string, rest: string)
    requires p <= |s| && s[p..] == line + "\n" + rest
    ensures p + |line| < |s| && s[p + |line|] == '\n' && s[p..p + |line|] == line
  {
    assert s[p..][|line|] == '\n';
    assert s[p..][..|line|] == line;
  }

  /** Where the stream stands after k lines have been read from written-out
      lines: just past the k-th of them. */
  lemma {:induction false} LinesEndOfLines(lines: seq<string>, k: nat)
    requires k <= |lines|
    requires forall i :: 0 <= i < |lines| ==> '\n' !in lines[i]
    ensures CountNewlines(JoinLines(lines)) == |lines|
    ensures JoinLines(lines)[0..] == JoinLines(lines)
    ensures LinesEnd(JoinLines(lines), 0, k) == |JoinLines(lines[..k])|
  {
    var s := JoinLines(lines);
    JoinLinesCount(lines);
    assert s[0..] == s;
    NoNewlinesInAll(lines, k);
    LinesEndIn(s, lines, k);
  }

  /** None of the first k lines holds a newline. */
  predicate NoNewlinesIn(lines: seq<string>, k: nat)
    requires k <= |lines|
  {
    k == 0 || ('\n' !in lines[k - 1] && NoNewlinesIn(lines, k - 1))
  }

  lemma {:induction false} NoNewlinesInAll(lines: seq<string>, k: nat)
    requires k <= |lines|
    requires forall i :: 0 <= i < |lines| ==> '\n' !in lines[i]
    ensures NoNewlinesIn(lines, k)
  {
    if k > 0 {
      NoNewlinesInAll(lines, k - 1);
    }
  }

  lemma {:induction false} LinesEndIn(s: string, lines: seq<string>, k: nat)
    requires s == JoinLines(lines) && k <= |lines|
    requires CountNewlines(s[0..]) == |lines|
    requires NoNewlinesIn(lines, k)
    ensures LinesEnd(s, 0, k) == |JoinLines(lines[..k])|
  {
    if k > 0 {
      LinesEndIn(s, lines, k - 1);
      NextLineEnd(lines, k);
    }
  }

  /** The line that starts where the first k - 1 written-out lines end
      ends where the first k do. */
  lemma NextLineEnd(lines: seq<string>, k: nat)
    requires 0 < k <= |lines| && '\n' !in lines[k - 1]
    ensures var s, p := JoinLines(lines), |JoinLines(lines[..k - 1])|;
      p <= |s| && CountNewlines(s[p..]) > 0 && LineEnd(s, p) == |JoinLines(lines[..k])|
  {
    var s, p := JoinLines(lines), |JoinLines(lines[..k - 1])|;
    NextLine(lines, k);
    LineEndAt(s, p, p + |lines[k - 1]|);
  }

  /** In written-out lines, the k-th line follows the first k - 1, and its
      newline ends the first k. */
  lemma NextLine(lines: seq<string>, k: nat)
    requires 0 < k <= |lines|
    ensures var s, p, line := JoinLines(lines), |JoinLines(lines[..k - 1])|, lines[k - 1];
      && p + |line| < |s| && s[p + |line|] == '\n' && s[p..p + |line|] == line
      && |JoinLines(lines[..k])| == p + |line| + 1
  {
    var s, p, line := JoinLines(lines), |JoinLines(lines[..k - 1])|, lines[k - 1];
    JoinLinesSplitAt(lines, k - 1);
    assert lines[k - 1..][0] == line && lines[k - 1..][1..] == lines[k..];
    LineAt(s, p, line, JoinLines(lines[k..]));
    TakeSnoc(lines, k);
    JoinLinesAppend(lines[..k - 1], [line]);
    assert [line][1..] == [];
  }
}
