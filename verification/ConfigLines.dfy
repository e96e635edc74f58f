/** The configuration parser seen as an automaton over lines. */
module ConfigLines {
  import opened Wrappers
  import opened ConfigText
  import opened ConfigParser

  /** Delimiter and comment are solid, and so is the sentry unless it is empty. */
  predicate Plain(c: Syntax) {
    Solid(c.delimiter) && Solid(c.comment) && (c.sentry == "" || Solid(c.sentry))
  }

  /** Between two lines: the contents so far, and the key and value still open; or stopped by the sentry. */
  datatype Scan = Running(contents: Contents, open: Option<(string, string)>) | Stopped(contents: Contents)

  function Close(st: Scan): Contents {
    if st.Running? && st.open.Some? then st.contents[Trim(st.open.value.0) := Trim(st.open.value.1)] else st.contents
  }

  /** A line while no value is open. */
  function Head(c: Syntax, m: Contents, line: string): Scan {
    var l := c.Strip(line);
    if c.HasSentry(l) then Stopped(m)
    else
      match Find(l, c.delimiter)
      case None => Running(m, None)
      case Some(i) => Running(m, Some((l[..i], l[i + |c.delimiter|..])))
  }

  function Scanned(c: Syntax, st: Scan, line: string): Scan {
    if st.Stopped? then st
    else if st.open.None? then Head(c, st.contents, line)
    else if EndsValue(c, line) then Head(c, Close(st), line)
    else st.(open := Some((st.open.value.0, Extended(c, st.open.value.1, line))))
  }

  function ScanAll(c: Syntax, st: Scan, lines: seq<string>): Scan
    decreases |lines|
  {
    if lines == [] then st else ScanAll(c, Scanned(c, st, lines[0]), lines[1..])
  }

  /** The end of the text: `last` is what follows the last newline. */
  function Ended(c: Syntax, st: Scan, last: string): Contents {
    if last == "" then Close(st)
    else if st.Running? && st.open.Some? && !EndsValue(c, last) then Close(Scanned(c, Scanned(c, st, last), c.Strip(last)))
    else Close(Scanned(c, st, last))
  }

  function Unlines(lines: seq<string>): string {
    if lines == [] then "" else lines[0] + "\n" + Unlines(lines[1..])
  }

  predicate AllLines(lines: seq<string>) {
    forall i :: 0 <= i < |lines| ==> IsLine(lines[i])
  }

  // ----- The stream loops refine the automaton -----

  /** Stripping twice is stripping once. */
  lemma StripTwice(c: Syntax, line: string)
    requires Plain(c)
    ensures c.Strip(c.Strip(line)) == c.Strip(line)
    ensures !Occurs(c.Strip(line), c.comment)
  {
    hide Find;
    if Find(line, c.comment).Some? {
      var i := Find(line, c.comment).value;
      if Occurs(line[..i], c.comment) {
        var j := Find(line[..i], c.comment).value;
        StandsAt(line[..i], j, c.comment);
        assert line[j..j + |c.comment|] == c.comment;
        FindIsFirst(line, c.comment, j);
      }
    }
  }

  lemma EmptyLine(c: Syntax, m: Contents)
    requires Plain(c)
    ensures c.Strip("") == "" && Head(c, m, "") == Running(m, None)
  {
  }

  lemma BlankLine(c: Syntax, m: Contents, line: string)
    requires Plain(c) && Trim(line) == ""
    ensures Head(c, m, line) == Running(m, None) && !c.HasSentry(c.Strip(line)) && !Occurs(c.Strip(line), c.delimiter)
  {
    TrimEmptyIffBlank(line);
    BlankHasNone(c.Strip(line), c.delimiter);
    if c.sentry != "" {
      BlankHasNone(c.Strip(line), c.sentry);
    }
  }

  /** A stream that has ended or failed yields at most the line read ahead. */
  lemma EndHead(c: Syntax, fail: bool, line: string, m: Contents)
    requires Plain(c)
    ensures ReadAll(c, In("", true, fail), line, m) == Close(Head(c, m, line))
  {
    EmptyLine(c, m);
    hide Find;
    hide Measure;
    NothingLeft(c, fail, m);
    var l := c.Strip(line);
    if line != "" && !c.HasSentry(l) && Find(l, c.delimiter).Some? {
      EndAhead(c, fail, l[Find(l, c.delimiter).value + |c.delimiter|..]);
      NothingLeft(c, true, Close(Head(c, m, line)));
    }
    hide GetLine;
    hide Trim;
  }

  lemma NothingLeft(c: Syntax, fail: bool, m: Contents)
    requires Plain(c)
    ensures ReadAll(c, In("", true, fail), "", m) == m
  {
    EmptyLine(c, m);
    assert GetLine(In("", true, fail), "") == (In("", true, true), "");
    assert ReadAll(c, In("", true, true), "", m) == m;
    hide Find;
    hide Trim;
    hide GetLine;
    hide Measure;
    hide ReadAhead;
  }

  lemma EndAhead(c: Syntax, fail: bool, v: string)
    ensures ReadAhead(c, In("", true, fail), v, "") == (v, "", In("", true, true))
  {
    assert GetLine(In("", true, fail), "") == (In("", true, true), "");
    assert Trim("") == "";
    hide Find;
    hide GetLine;
    hide Measure;
  }

  lemma {:induction false} ScanStopped(c: Syntax, m: Contents, lines: seq<string>)
    ensures ScanAll(c, Stopped(m), lines) == Stopped(m)
    decreases |lines|
  {
    if lines != [] {
      ScanStopped(c, m, lines[1..]);
    }
  }

  /** The outer loop, with `line` read ahead or (when it is empty) nothing, and `rest` lines and `last` to come. */
  lemma {:induction false} AtHead(c: Syntax, rest: seq<string>, last: string, line: string, m: Contents)
    requires Plain(c) && AllLines(rest) && IsLine(last)
    ensures ReadAll(c, In(Unlines(rest) + last, false, false), line, m)
      == Ended(c, ScanAll(c, Head(c, m, line), rest), last)
    decreases |rest|, if line == "" then 1 else 2
  {
    hide Find;
    hide Trim;
    hide GetLine;
    hide Measure;
    hide EndsValue;
    hide ReadAhead;
    EmptyLine(c, m);
    var s := In(Unlines(rest) + last, false, false);
    var l := c.Strip(line);
    if line != "" {
      if c.HasSentry(l) {
        ScanStopped(c, m, rest);
      } else if Find(l, c.delimiter).None? {
        AtHead(c, rest, last, "", m);
      } else {
        var i := Find(l, c.delimiter).value;
        AtOpen(c, rest, last, "", l[..i], l[i + |c.delimiter|..], m);
      }
    } else if rest == [] {
      ReadLastLine(last, "");
      EndHead(c, last == "", last, m);
      assert Unlines(rest) + last == last;
      FirstLine(c, s, In("", true, last == ""), last, m);
    } else {
      var s' := In(Unlines(rest[1..]) + last, false, false);
      assert Unlines(rest) + last == rest[0] + "\n" + (Unlines(rest[1..]) + last);
      ReadLine(rest[0], Unlines(rest[1..]) + last, "");
      FirstLine(c, s, s', rest[0], m);
      AtHead(c, rest[1..], last, rest[0], m);
    }
  }

  /** Reading a line is the same as having read it ahead. */
  lemma FirstLine(c: Syntax, s: In, s': In, line: string, m: Contents)
    requires Plain(c) && !s.fail && GetLine(s, "") == (s', line)
    ensures ReadAll(c, s, "", m) == ReadAll(c, s', line, m)
  {
    EmptyLine(c, m);
    hide Find;
    hide Trim;
    hide GetLine;
    hide Measure;
    hide ReadAhead;
    assert ReadAll(c, s, "", m) == WithLine(c, s', line, m);
  }

  /** The inner loop followed by the outer one, with the value `v` of key `k` open. */
  lemma {:induction false} AtOpen(c: Syntax, rest: seq<string>, last: string, next: string, k: string, v: string, m: Contents)
    requires Plain(c) && AllLines(rest) && IsLine(last)
    ensures var r := ReadAhead(c, In(Unlines(rest) + last, false, false), v, next);
      ReadAll(c, r.2, r.1, m[Trim(k) := Trim(r.0)]) == Ended(c, ScanAll(c, Running(m, Some((k, v))), rest), last)
    decreases |rest|, 0
  {
    hide Find;
    hide Trim;
    hide GetLine;
    hide Measure;
    hide ReadAll;
    var m' := m[Trim(k) := Trim(v)];
    if rest == [] {
      assert Unlines(rest) + last == last;
      ReadLastLine(last, next);
      AtOpenLast(c, last, next, k, v, m);
    } else {
      var l, more := rest[0], rest[1..];
      assert Unlines(rest) + last == l + "\n" + (Unlines(more) + last);
      ReadLine(l, Unlines(more) + last, next);
      if EndsValue(c, l) {
        AtHead(c, more, last, l, m');
        AtHead(c, more, last, c.Strip(l), m');
        StripTwice(c, l);
      } else {
        AtOpen(c, more, last, c.Strip(l), k, Extended(c, v, l), m);
      }
    }
  }

  lemma AtOpenLast(c: Syntax, last: string, next: string, k: string, v: string, m: Contents)
    requires Plain(c) && IsLine(last) && GetLine(In(last, false, false), next) == (In("", true, last == ""), last)
    ensures var r := ReadAhead(c, In(last, false, false), v, next);
      ReadAll(c, r.2, r.1, m[Trim(k) := Trim(r.0)]) == Ended(c, Running(m, Some((k, v))), last)
  {
    hide Find;
    hide GetLine;
    hide Measure;
    hide ReadAll;
    var m' := m[Trim(k) := Trim(v)];
    EmptyLine(c, m');
    assert Trim("") == "";
    hide Trim;
    if last == "" {
      EndHead(c, true, "", m');
    } else if EndsValue(c, last) {
      StripTwice(c, last);
      EndHead(c, false, last, m');
      EndHead(c, false, c.Strip(last), m');
    } else {
      LastLineTwice(c, last, v);
      var l, w := c.Strip(last), Extended(c, v, last);
      EndHead(c, true, l, m[Trim(k) := Trim(if EndsValue(c, l) then w else Extended(c, w, l))]);
    }
  }

  /** At the end of the stream `getline` leaves the last line where it is, and the inner loop takes it once more. */
  lemma LastLineTwice(c: Syntax, last: string, v: string)
    requires Plain(c) && !EndsValue(c, last)
    ensures var l, w := c.Strip(last), Extended(c, v, last);
      ReadAhead(c, In("", true, false), w, l) == (if EndsValue(c, l) then w else Extended(c, w, l), l, In("", true, true))
  {
    StripTwice(c, last);
    var l := c.Strip(last);
    assert GetLine(In("", true, false), l) == (In("", true, true), l);
    hide Find;
    hide Trim;
    hide GetLine;
    hide Measure;
  }
}
