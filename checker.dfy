/**
 * The recording checker for tests: renders a recording as text rows and
 * compares them with an expected text, row by row, where an `event:` row
 * may leave out the `file:line` token the recording carries.
 */
module Checker {
  import opened Wrappers
  import opened Text

  /** One field of a log record; values are kept as their text. */
  datatype LogField = LogField(key: string, value: string)

  datatype LogRecord = LogRecord(fields: seq<LogField>)

  /** A `RecordedSpan` as far as the checker reads it. */
  datatype RecordedSpan = RecordedSpan(operation: string, tags: map<string, string>, logs: seq<LogRecord>)

  /** The failure the checker reports: the trimmed expectation and the rendering (the caller's file and line are not modelled). */
  datatype Mismatch = Mismatch(expected: string, got: string)

  // ---------------------------------------------------------------------
  // Rendering

  /** The row that opens a span. */
  function SpanHeader(operation: string): string {
    "span " + operation + ":"
  }

  /** One `k=v` tag entry. */
  function TagEntry(k: string, v: string): string {
    k + "=" + v
  }

  /** The entries of `m` for the keys in `order`, in that order. */
  function EntriesOf(m: map<string, string>, order: seq<string>): (r: seq<string>)
    requires forall i :: 0 <= i < |order| ==> order[i] in m
    ensures |r| == |order|
  {
    seq(|order|, i requires 0 <= i < |order| => TagEntry(order[i], m[order[i]]))
  }

  /** The tag row: the entries sorted, so that the row does not depend on the order the map is ranged over. */
  ghost function TagsRow(tags: map<string, string>): string {
    var order := KeyOrder(tags.Keys);
    "  tags: " + Join(Sort(EntriesOf(tags, order)), " ")
  }

  /** The text of one field in a log row. */
  function FieldText(f: LogField): string {
    "  " + f.key + ": " + f.value
  }

  /** The row of one log record: its fields, one after the other. */
  function LogRow(fields: seq<LogField>): string {
    if fields == [] then "" else LogRow(fields[..|fields| - 1]) + FieldText(fields[|fields| - 1])
  }

  /** The rows of one recorded span: its header, its tags when it has any, and one row per log record. */
  ghost function SpanRows(rs: RecordedSpan): (r: seq<string>)
    ensures |r| == 1 + (if |rs.tags| > 0 then 1 else 0) + |rs.logs|
    ensures r[0] == SpanHeader(rs.operation)
  {
    [SpanHeader(rs.operation)]
    + (if |rs.tags| > 0 then [TagsRow(rs.tags)] else [])
    + LogRows(rs.logs)
  }

  /** The rows of a whole recording, span after span. */
  ghost function Rows(recSpans: seq<RecordedSpan>): (r: seq<string>)
    ensures |r| >= |recSpans|
  {
    if recSpans == [] then [] else Rows(recSpans[..|recSpans| - 1]) + SpanRows(recSpans[|recSpans| - 1])
  }

  /** The first row is the header of the first span. */
  lemma {:induction false} RowsHead(recSpans: seq<RecordedSpan>)
    requires recSpans != []
    ensures Rows(recSpans)[0] == SpanHeader(recSpans[0].operation)
    decreases |recSpans|
  {
    var init := recSpans[..|recSpans| - 1];
    if init != [] {
      RowsHead(init);
      assert init[0] == recSpans[0];
    }
  }

  /** `f` applied to each element of `s`. */
  function Image<T, U>(f: T -> U, s: seq<T>): (r: seq<U>)
    ensures |r| == |s|
  {
    seq(|s|, i requires 0 <= i < |s| => f(s[i]))
  }

  lemma ImageAppend<T, U>(f: T -> U, a: seq<T>, b: seq<T>)
    ensures Image(f, a + b) == Image(f, a) + Image(f, b)
  {
  }

  lemma MultisetCancel<T>(p: multiset<T>, q: multiset<T>, x: T)
    requires p + multiset{x} == q + multiset{x}
    ensures p == q
  {
    forall y ensures p[y] == q[y] {
      assert (p + multiset{x})[y] == (q + multiset{x})[y];
    }
  }

  /** Mapping two orderings of the same elements gives two orderings of the same images. */
  lemma {:induction false} ImagePermutation<T, U>(f: T -> U, s1: seq<T>, s2: seq<T>)
    requires multiset(s1) == multiset(s2)
    ensures multiset(Image(f, s1)) == multiset(Image(f, s2))
    decreases |s1|
  {
    if s1 != [] {
      var n := |s1|;
      var x := s1[n - 1];
      var init := s1[..n - 1];
      assert s1 == init + [x];
      assert x in multiset(s2);
      var j :| 0 <= j < |s2| && s2[j] == x;
      var a, b := s2[..j], s2[j + 1..];
      assert s2 == a + [x] + b;
      assert multiset(s1) == multiset(init) + multiset{x};
      assert multiset(s2) == multiset(a + b) + multiset{x};
      MultisetCancel(multiset(init), multiset(a + b), x);
      ImagePermutation(f, init, a + b);
      ImageAppend(f, init, [x]);
      ImageAppend(f, a, b);
      ImageAppend(f, a + [x], b);
      ImageAppend(f, a, [x]);
      assert Image(f, [x]) == [f(x)];
      calc {
        multiset(Image(f, s2));
        multiset(Image(f, a) + [f(x)] + Image(f, b));
        multiset(Image(f, a)) + multiset{f(x)} + multiset(Image(f, b));
        multiset(Image(f, a + b)) + multiset{f(x)};
        multiset(Image(f, init)) + multiset{f(x)};
        multiset(Image(f, s1));
      }
    } else {
      assert s2 == [];
    }
  }

  /** The entry of a key of `m`, as a total function (keys outside `m` do not occur). */
  function EntryFn(m: map<string, string>): string -> string {
    k => TagEntry(k, if k in m then m[k] else "")
  }

  lemma EntriesImage(m: map<string, string>, order: seq<string>)
    requires forall i :: 0 <= i < |order| ==> order[i] in m
    ensures EntriesOf(m, order) == Image(EntryFn(m), order)
  {
  }

  /** The tag row for one visit order `order` of the tags is the tag row. */
  lemma TagsRowAnyOrder(tags: map<string, string>, order: seq<string>)
    requires IsEnumeration(order, tags.Keys)
    ensures forall i :: 0 <= i < |order| ==> order[i] in tags
    ensures "  tags: " + Join(Sort(EntriesOf(tags, order)), " ") == TagsRow(tags)
  {
    var fixed := KeyOrder(tags.Keys);
    EnumerationMultiset(order, tags.Keys);
    EnumerationMultiset(fixed, tags.Keys);
    ImagePermutation(EntryFn(tags), order, fixed);
    EntriesImage(tags, order);
    EntriesImage(tags, fixed);
    SortPermutationInvariant(EntriesOf(tags, order), EntriesOf(tags, fixed));
  }

  /** The tag loop: ranges over the tags, collects the entries, sorts them and joins them. */
  method RenderTags(tags: map<string, string>) returns (row: string)
    ensures row == TagsRow(tags)
  {
    var entries: seq<string> := [];
    ghost var order: seq<string> := [];
    var remaining := tags.Keys;
    while remaining != {}
      invariant remaining <= tags.Keys
      invariant forall i :: 0 <= i < |order| ==> order[i] in tags
      invariant forall i, j :: 0 <= i < j < |order| ==> order[i] != order[j]
      invariant forall k :: k in order <==> k in tags && k !in remaining
      invariant entries == EntriesOf(tags, order)
      decreases remaining
    {
      var k :| k in remaining;
      entries := entries + [TagEntry(k, tags[k])];
      order := order + [k];
      remaining := remaining - {k};
    }
    TagsRowAnyOrder(tags, order);
    row := "  tags: " + Join(Sort(entries), " ");
  }

  /** The field loop of one log record. */
  method RenderLog(l: LogRecord) returns (msg: string)
    ensures msg == LogRow(l.fields)
  {
    msg := "";
    for i := 0 to |l.fields|
      invariant msg == LogRow(l.fields[..i])
    {
      assert l.fields[..i + 1][..i] == l.fields[..i];
      msg := msg + FieldText(l.fields[i]);
    }
    assert l.fields[..|l.fields|] == l.fields;
  }

  /** The log rows of a span, one per record. */
  ghost function LogRows(logs: seq<LogRecord>): (r: seq<string>)
    ensures |r| == |logs|
  {
    seq(|logs|, i requires 0 <= i < |logs| => LogRow(logs[i].fields))
  }

  /** The log loop of one span. */
  method RenderLogs(logs: seq<LogRecord>) returns (rows: seq<string>)
    ensures rows == LogRows(logs)
  {
    rows := [];
    for j := 0 to |logs|
      invariant |rows| == j
      invariant forall n :: 0 <= n < j ==> rows[n] == LogRow(logs[n].fields)
    {
      var msg := RenderLog(logs[j]);
      rows := rows + [msg];
    }
  }

  /** The rows of one span. */
  method RenderSpan(rs: RecordedSpan) returns (rows: seq<string>)
    ensures rows == SpanRows(rs)
  {
    rows := [SpanHeader(rs.operation)];
    if |rs.tags| > 0 {
      var tagsRow := RenderTags(rs.tags);
      rows := rows + [tagsRow];
    }
    var logRows := RenderLogs(rs.logs);
    rows := rows + logRows;
  }

  /** The rendering loop of `TestingCheckRecordedSpans`: one header, an optional tag row and the log rows per span. */
  method Render(recSpans: seq<RecordedSpan>) returns (rows: seq<string>)
    ensures rows == Rows(recSpans)
  {
    rows := [];
    for i := 0 to |recSpans|
      invariant rows == Rows(recSpans[..i])
    {
      assert recSpans[..i + 1][..i] == recSpans[..i];
      var spanRows := RenderSpan(recSpans[i]);
      rows := rows + spanRows;
    }
    assert recSpans[..|recSpans|] == recSpans;
  }

  // ---------------------------------------------------------------------
  // Matching

  const EventPrefix: string := "event: "

  predicate IsDigit(c: char) {
    '0' <= c <= '9'
  }

  /** The end of the run of decimal digits starting at `i`. */
  function DigitRunEnd(s: string, i: nat): (j: nat)
    requires i <= |s|
    ensures i <= j <= |s|
    decreases |s| - i
  {
    if i < |s| && IsDigit(s[i]) then DigitRunEnd(s, i + 1) else i
  }

  /** The run is all digits and ends at the first character that is not one. */
  lemma {:induction false} DigitRunSpec(s: string, i: nat)
    requires i <= |s|
    ensures forall n :: i <= n < DigitRunEnd(s, i) ==> IsDigit(s[n])
    ensures DigitRunEnd(s, i) == |s| || !IsDigit(s[DigitRunEnd(s, i)])
    decreases |s| - i
  {
    if i < |s| && IsDigit(s[i]) {
      DigitRunSpec(s, i + 1);
    }
  }

  /**
   * A place where `.*:[0-9]* ` can end its `:`: a colon after the `event: `
   * prefix whose run of digits is followed by a space.
   */
  predicate FileLineAt(msg: string, p: nat) {
    && |EventPrefix| <= p < |msg|
    && msg[p] == ':'
    && DigitRunEnd(msg, p + 1) < |msg|
    && msg[DigitRunEnd(msg, p + 1)] == ' '
  }

  /** The last such colon before `hi`: the greedy `.*` takes the longest prefix that still lets the rest match. */
  function LastFileLine(msg: string, hi: nat): (r: Option<nat>)
    requires hi <= |msg|
    ensures r.None? ==> forall q :: 0 <= q < hi ==> !FileLineAt(msg, q)
    ensures r.Some? ==> r.value < hi && FileLineAt(msg, r.value)
    ensures r.Some? ==> forall q :: r.value < q < hi ==> !FileLineAt(msg, q)
    decreases hi
  {
    if hi <= |EventPrefix| then None
    else if FileLineAt(msg, hi - 1) then Some(hi - 1)
    else LastFileLine(msg, hi - 1)
  }

  /**
   * The second submatch of `^(event: ).*:[0-9]* (.*)$`, when the whole
   * message matches: `.` does not match a line break, so a message holding
   * one never matches.
   */
  function FileLineSubmatch(msg: string): Option<string> {
    if !(EventPrefix <= msg) || '\n' in msg then None
    else match LastFileLine(msg, |msg|)
      case None => None
      case Some(p) => Some(msg[DigitRunEnd(msg, p + 1) + 1..])
  }

  /** `matchesWithoutFileLine`: the event with its `file:line ` token dropped is the expected row. */
  predicate MatchesWithoutFileLine(msg: string, expected: string) {
    var g := FileLineSubmatch(msg);
    g.Some? && EventPrefix + g.value == expected
  }

  /** A match splits the message into the prefix, a file, a colon, a line number, a space and the expected text. */
  lemma MatchSound(msg: string, expected: string) returns (file: string, line: string, rest: string)
    requires MatchesWithoutFileLine(msg, expected)
    ensures msg == EventPrefix + file + ":" + line + " " + rest
    ensures forall i :: 0 <= i < |line| ==> IsDigit(line[i])
    ensures expected == EventPrefix + rest
    ensures '\n' !in msg
  {
    var p := LastFileLine(msg, |msg|).value;
    var j := DigitRunEnd(msg, p + 1);
    DigitRunSpec(msg, p + 1);
    file, line, rest := msg[|EventPrefix|..p], msg[p + 1..j], msg[j + 1..];
    Decompose(msg, |EventPrefix|, p, j);
    assert msg[..|EventPrefix|] == EventPrefix;
    assert [msg[p]] == ":" && [msg[j]] == " ";
  }

  lemma Decompose(s: string, k: nat, p: nat, j: nat)
    requires k <= p < j < |s|
    ensures s == s[..k] + s[k..p] + [s[p]] + s[p + 1..j] + [s[j]] + s[j + 1..]
  {
    assert s == s[..k] + s[k..p] + s[p..p + 1] + s[p + 1..j] + s[j..j + 1] + s[j + 1..];
  }

  /** Any event of the form `event: file:line text` matches `event: text` when the text has no colon. */
  lemma MatchComplete(file: string, line: string, rest: string)
    requires forall i :: 0 <= i < |line| ==> IsDigit(line[i])
    requires '\n' !in file && '\n' !in rest && ':' !in rest
    ensures MatchesWithoutFileLine(EventPrefix + file + ":" + line + " " + rest, EventPrefix + rest)
  {
    var msg := EventPrefix + file + ":" + line + " " + rest;
    var p := |EventPrefix| + |file|;
    var j := p + 1 + |line|;
    Decompose(msg, |EventPrefix|, p, j);
    assert msg[..|EventPrefix|] == EventPrefix && msg[|EventPrefix|..p] == file && msg[p] == ':';
    assert msg[p + 1..j] == line && msg[j] == ' ' && msg[j + 1..] == rest;
    assert '\n' !in msg by {
      assert '\n' !in EventPrefix && '\n' !in line;
    }
    MatchAt(msg, p, j);
  }

  /** A colon at `p` followed by digits up to a space at `j`, with no colon after it, is where the match splits the message. */
  lemma MatchAt(msg: string, p: nat, j: nat)
    requires EventPrefix <= msg && '\n' !in msg
    requires |EventPrefix| <= p < j < |msg| && msg[p] == ':' && msg[j] == ' '
    requires forall n :: p < n < j ==> IsDigit(msg[n])
    requires ':' !in msg[j + 1..]
    ensures FileLineSubmatch(msg) == Some(msg[j + 1..])
  {
    DigitRunFrom(msg, p + 1, j);
    assert FileLineAt(msg, p);
    forall q | p < q < |msg| ensures !FileLineAt(msg, q) {
      if q > j {
        assert msg[q] == msg[j + 1..][q - j - 1];
      }
    }
    assert LastFileLine(msg, |msg|) == Some(p);
  }

  lemma {:induction false} DigitRunFrom(s: string, i: nat, j: nat)
    requires i <= j < |s| && !IsDigit(s[j])
    requires forall n :: i <= n < j ==> IsDigit(s[n])
    ensures DigitRunEnd(s, i) == j
    decreases j - i
  {
    if i < j {
      DigitRunFrom(s, i + 1, j);
    }
  }

  /** The example the source gives for the file:line rule. */
  lemma FileLineExample()
    ensures MatchesWithoutFileLine("event: util/log/trace_test.go:111 log", "event: log")
  {
    var msg := "event: util/log/trace_test.go:111 log";
    assert msg[..|EventPrefix|] == EventPrefix;
    assert msg[34..] == "log";
    MatchAt(msg, 29, 33);
  }

  // ---------------------------------------------------------------------
  // The check

  /** The expected rows: the trimmed text split at line breaks; none for a blank text. */
  function ExpectedRows(expected: string): seq<string> {
    var e := TrimSpace(expected);
    if e == "" then [] else Split(e, '\n')
  }

  /** A rendered row matches an expected one when, trimmed of blanks and tabs, they are equal or differ only by the file:line token. */
  predicate RowMatches(row: string, expected: string) {
    var r := TrimBlanks(row);
    var e := TrimBlanks(expected);
    e == r || MatchesWithoutFileLine(r, e)
  }

  predicate RowsMatch(rows: seq<string>, expRows: seq<string>) {
    |rows| == |expRows| && forall i :: 0 <= i < |rows| ==> RowMatches(rows[i], expRows[i])
  }

  /**
   * `TestingCheckRecordedSpans`: no error exactly when the recording's rows
   * and the expected rows are as many and match pairwise; the error carries
   * both texts.
   */
  method TestingCheckRecordedSpans(recSpans: seq<RecordedSpan>, expected: string) returns (err: Option<Mismatch>)
    ensures err.None? <==> RowsMatch(Rows(recSpans), ExpectedRows(expected))
    ensures err.Some? ==> err.value == Mismatch(TrimSpace(expected), Join(Rows(recSpans), "\n"))
  {
    var exp := TrimSpace(expected);
    var rows := Render(recSpans);
    var expRows: seq<string> := [];
    if exp != "" {
      expRows := Split(exp, '\n');
    }
    var matched := MatchRows(rows, expRows);
    if !matched {
      return Some(Mismatch(exp, Join(rows, "\n")));
    }
    return None;
  }

  /** The comparison loop: as many rows as expected, and each pair matching. */
  method MatchRows(rows: seq<string>, expRows: seq<string>) returns (matched: bool)
    ensures matched <==> RowsMatch(rows, expRows)
  {
    matched := false;
    if |expRows| == |rows| {
      matched := true;
      var i := 0;
      while i < |expRows|
        invariant 0 <= i <= |expRows|
        invariant matched
        invariant forall j :: 0 <= j < i ==> RowMatches(rows[j], expRows[j])
      {
        var ok := MatchRow(rows[i], expRows[i]);
        if !ok {
          assert !RowsMatch(rows, expRows);
          return false;
        }
        i := i + 1;
      }
    }
  }

  /** The comparison of one row pair, after trimming blanks and tabs. */
  method MatchRow(row: string, expRow: string) returns (ok: bool)
    ensures ok <==> RowMatches(row, expRow)
  {
    var e := TrimBlanks(expRow);
    var r := TrimBlanks(row);
    ok := !(e != r && !MatchesWithoutFileLine(r, e));
  }

  lemma {:induction false} JoinEnds(parts: seq<string>, sep: string)
    requires parts != [] && parts[0] != [] && parts[|parts| - 1] != []
    ensures var s := Join(parts, sep);
      s != [] && s[0] == parts[0][0] && s[|s| - 1] == parts[|parts| - 1][|parts[|parts| - 1]| - 1]
    decreases |parts|
  {
    if |parts| > 1 {
      var rest := parts[1..];
      if |rest| > 1 {
        assert rest[0] == parts[1];
        if rest[0] == [] {
          var s := Join(rest, sep);
          assert rest[1..] != [];
          JoinEndsLast(rest, sep);
        } else {
          JoinEnds(rest, sep);
        }
      }
    }
  }

  lemma {:induction false} JoinEndsLast(parts: seq<string>, sep: string)
    requires |parts| >= 1 && parts[|parts| - 1] != []
    ensures var s := Join(parts, sep);
      s != [] && s[|s| - 1] == parts[|parts| - 1][|parts[|parts| - 1]| - 1]
    decreases |parts|
  {
    if |parts| > 1 {
      JoinEndsLast(parts[1..], sep);
    }
  }

  /**
   * The checker accepts a recording's own rendering as the expected text,
   * provided the rows hold no line breaks and the last row does not end in
   * white space (which `TrimSpace` would take off).
   */
  lemma CheckAcceptsOwnRendering(recSpans: seq<RecordedSpan>)
    requires recSpans != []
    requires forall i :: 0 <= i < |Rows(recSpans)| ==> '\n' !in Rows(recSpans)[i]
    requires var last := Rows(recSpans)[|Rows(recSpans)| - 1]; last != [] && !IsSpace(last[|last| - 1])
    ensures RowsMatch(Rows(recSpans), ExpectedRows(Join(Rows(recSpans), "\n")))
  {
    var rows := Rows(recSpans);
    RowsHead(recSpans);
    assert SpanHeader(recSpans[0].operation)[0] == 's';
    TextSelfMatch(rows);
  }

  /** Rows without line breaks whose text has no white space at either end come back from their own joined text. */
  lemma TextSelfMatch(rows: seq<string>)
    requires rows != [] && rows[0] != [] && rows[|rows| - 1] != []
    requires !IsSpace(rows[0][0]) && !IsSpace(rows[|rows| - 1][|rows[|rows| - 1]| - 1])
    requires forall i :: 0 <= i < |rows| ==> '\n' !in rows[i]
    ensures RowsMatch(rows, ExpectedRows(Join(rows, "\n")))
  {
    JoinEnds(rows, "\n");
    var text := Join(rows, "\n");
    TrimUnchanged(text, IsSpace);
    SplitJoin(rows, '\n');
    assert ExpectedRows(text) == rows;
  }
}
