/** Printing what was parsed and parsing it again, and what a missing last newline does. */
module ConfigRoundTrip {
  import opened Wrappers
  import opened ConfigText
  import opened ConfigParser
  import opened ConfigLines

  // ----- Shape of parsed keys and values -----

  predicate Clean(c: Syntax, s: string) {
    !Occurs(s, c.comment) && !c.HasSentry(s) && IsLine(s)
  }

  predicate Continuation(c: Syntax, s: string) {
    Clean(c, s) && !Occurs(s, c.delimiter) && !Blank(s)
  }

  /** The lines of a value: every line after the first is one the inner loop accepts. */
  predicate ValueLines(c: Syntax, ls: seq<string>) {
    ls != [] && Clean(c, ls[0]) && forall i :: 1 <= i < |ls| ==> Continuation(c, ls[i])
  }

  function Tail(ls: seq<string>): string {
    if ls == [] then "" else "\n" + ls[0] + Tail(ls[1..])
  }

  function Join(ls: seq<string>): string
    requires ls != []
  {
    ls[0] + Tail(ls[1..])
  }

  ghost predicate IsValue(c: Syntax, v: string) {
    exists ls :: ValueLines(c, ls) && v == Join(ls)
  }

  predicate IsKey(c: Syntax, k: string) {
    Clean(c, k) && !Occurs(k, c.delimiter)
  }

  ghost predicate Good(c: Syntax, m: Contents) {
    && (m != map[] ==> Clean(c, c.delimiter))
    && forall k :: k in m ==> IsKey(c, k) && Trimmed(k) && IsValue(c, m[k]) && Trimmed(m[k])
  }

  ghost predicate ScanOk(c: Syntax, st: Scan) {
    && Good(c, st.contents)
    && (st.Running? && st.open.Some? ==>
          Clean(c, c.delimiter) && IsKey(c, st.open.value.0) && IsValue(c, st.open.value.1))
  }

  // ----- Parts of clean strings -----

  lemma PartIsClean(c: Syntax, s: string, a: nat, b: nat)
    requires Clean(c, s) && a <= b <= |s|
    ensures Clean(c, s[a..b])
    ensures !Occurs(s, c.delimiter) ==> !Occurs(s[a..b], c.delimiter)
  {
    hide Find;
    if Occurs(s[a..b], c.comment) {
      PartOccurs(s, a, b, c.comment);
    }
    if c.HasSentry(s[a..b]) {
      PartOccurs(s, a, b, c.sentry);
    }
    if Occurs(s[a..b], c.delimiter) {
      PartOccurs(s, a, b, c.delimiter);
    }
  }

  lemma BlankTailOccurs(s: string, w: string, pat: string)
    requires Blank(w) && Solid(pat) && Occurs(s + w, pat)
    ensures Occurs(s, pat)
  {
    hide Find;
    if w == "" {
      assert s + w == s;
    } else {
      assert s + w == s + [w[0]] + w[1..];
      OccursAround(s, w[0], w[1..], pat);
      if Occurs(w[1..], pat) {
        BlankHasNone(w[1..], pat);
      }
    }
  }

  lemma BlankTailIsClean(c: Syntax, s: string, w: string)
    requires Plain(c) && Clean(c, s) && Blank(w) && IsLine(w)
    ensures Clean(c, s + w)
    ensures !Occurs(s, c.delimiter) ==> !Occurs(s + w, c.delimiter)
  {
    hide Find;
    if Occurs(s + w, c.comment) {
      BlankTailOccurs(s, w, c.comment);
    }
    if c.HasSentry(s + w) {
      BlankTailOccurs(s, w, c.sentry);
    }
    if Occurs(s + w, c.delimiter) {
      BlankTailOccurs(s, w, c.delimiter);
    }
  }

  lemma CleanAround(c: Syntax, a: string, b: string)
    requires Plain(c) && Clean(c, a) && Clean(c, b)
    ensures Clean(c, a + " " + b)
  {
    hide Find;
    if Occurs(a + " " + b, c.comment) {
      OccursAround(a, ' ', b, c.comment);
    }
    if c.HasSentry(a + " " + b) {
      OccursAround(a, ' ', b, c.sentry);
    }
  }

  lemma StripIsClean(c: Syntax, line: string)
    requires Plain(c) && IsLine(line) && !c.HasSentry(c.Strip(line))
    ensures Clean(c, c.Strip(line))
  {
    StripTwice(c, line);
  }

  lemma CleanStrips(c: Syntax, line: string)
    requires Clean(c, line)
    ensures c.Strip(line) == line
  {
  }

  // ----- Joining lines -----

  lemma {:induction false} TailAppend(a: seq<string>, b: seq<string>)
    ensures Tail(a + b) == Tail(a) + Tail(b)
  {
    if a == [] {
      assert a + b == b;
    } else {
      assert (a + b)[1..] == a[1..] + b;
      TailAppend(a[1..], b);
    }
  }

  lemma JoinOne(s: string)
    ensures Join([s]) == s
  {
  }

  lemma JoinSnoc(ls: seq<string>, l: string)
    requires ls != []
    ensures Join(ls + [l]) == Join(ls) + "\n" + l
  {
    assert (ls + [l])[1..] == ls[1..] + [l];
    TailAppend(ls[1..], [l]);
    assert Tail([l]) == "\n" + l;
  }

  lemma JoinFront(l: string, ls: seq<string>)
    requires ls != []
    ensures Join([l] + ls) == l + "\n" + Join(ls)
  {
    assert ([l] + ls)[1..] == ls;
  }

  /** Replacing the last line. */
  lemma JoinLast(ls: seq<string>, a: string, b: string)
    requires ls != [] && ls[|ls| - 1] == a + b
    ensures Join(ls) == Join(ls[..|ls| - 1] + [a]) + b
  {
    var front := ls[..|ls| - 1];
    if front == [] {
      assert ls == [a + b] && front + [a] == [a];
    } else {
      assert ls == front + [a + b];
      JoinSnoc(front, a + b);
      JoinSnoc(front, a);
    }
  }

  // ----- Trimming a value leaves a value -----

  lemma {:induction false} TrimLeftValue(c: Syntax, ls: seq<string>) returns (r: seq<string>)
    requires ValueLines(c, ls)
    ensures ValueLines(c, r) && TrimLeft(Join(ls)) == Join(r)
    decreases |ls|
  {
    hide Find;
    var a := TrimLeftSplits(ls[0]);
    var t := TrimLeft(ls[0]);
    assert ls == [ls[0]] + ls[1..];
    if t == "" && |ls| > 1 {
      JoinFront(ls[0], ls[1..]);
      assert Join(ls) == (ls[0] + "\n") + Join(ls[1..]);
      TrimLeftDrops(ls[0] + "\n", Join(ls[1..]));
      r := TrimLeftValue(c, ls[1..]);
    } else {
      r := [t] + ls[1..];
      assert t == ls[0][|a|..|ls[0]|];
      PartIsClean(c, ls[0], |a|, |ls[0]|);
      assert r[1..] == ls[1..];
      assert Join(ls) == a + Join(r);
      TrimLeftDrops(a, Join(r));
      if t == "" {
        JoinOne(t);
      } else {
        assert Join(r)[0] == t[0];
      }
    }
  }

  lemma TrimRightValue(c: Syntax, ls: seq<string>) returns (r: seq<string>)
    requires ValueLines(c, ls)
    ensures ValueLines(c, r) && TrimRight(Join(ls)) == Join(r)
  {
    hide Find;
    var last := ls[|ls| - 1];
    var b := TrimRightSplits(last);
    var t := TrimRight(last);
    r := ls[..|ls| - 1] + [t];
    JoinLast(ls, t, b);
    assert t == last[0..|t|];
    PartIsClean(c, last, 0, |t|);
    TrimRightDrops(Join(r), b);
    if |ls| == 1 {
      JoinOne(t);
      assert r == [t];
      assert TrimRight(t) == t;
    } else {
      assert !Blank(t) by {
        assert last == t + b;
      }
      JoinSnoc(ls[..|ls| - 1], t);
      assert Join(r)[|Join(r)| - 1] == t[|t| - 1];
    }
  }

  lemma TrimmedValue(c: Syntax, v: string)
    requires IsValue(c, v)
    ensures IsValue(c, Trim(v)) && Trimmed(Trim(v))
  {
    hide Find;
    hide Clean;
    hide Continuation;
    hide TrimLeft;
    hide TrimRight;
    var ls :| ValueLines(c, ls) && v == Join(ls);
    var left := TrimLeftValue(c, ls);
    var both := TrimRightValue(c, left);
    var a, b := TrimSplits(v);
    assert Trim(v) == Join(both);
  }

  lemma TrimmedKey(c: Syntax, k: string)
    requires IsKey(c, k)
    ensures IsKey(c, Trim(k)) && Trimmed(Trim(k))
  {
    hide Find;
    var a, b := TrimSplits(k);
    assert Trim(k) == k[|a|..|k| - |b|];
    PartIsClean(c, k, |a|, |k| - |b|);
  }

  // ----- Every state the parser reaches is of this shape -----

  lemma CloseOk(c: Syntax, st: Scan)
    requires ScanOk(c, st)
    ensures Good(c, Close(st))
  {
    hide Find;
    hide Clean;
    hide IsValue;
    hide Trim;
    hide IsKey;
    if st.Running? && st.open.Some? {
      TrimmedKey(c, st.open.value.0);
      TrimmedValue(c, st.open.value.1);
    }
  }

  lemma HeadOk(c: Syntax, m: Contents, line: string)
    requires Plain(c) && Good(c, m) && IsLine(line)
    ensures ScanOk(c, Head(c, m, line))
  {
    hide Find;
    hide Good;
    var l := c.Strip(line);
    if !c.HasSentry(l) && Find(l, c.delimiter).Some? {
      StripIsClean(c, line);
      var i := Find(l, c.delimiter).value;
      PartIsClean(c, l, 0, i);
      PartIsClean(c, l, i, i + |c.delimiter|);
      PartIsClean(c, l, i + |c.delimiter|, |l|);
      KeyHasNoDelimiter(c, l);
      assert l[0..i] == l[..i] && l[i + |c.delimiter|..|l|] == l[i + |c.delimiter|..];
      var v := l[i + |c.delimiter|..];
      JoinOne(v);
      assert ValueLines(c, [v]);
    }
  }

  lemma KeyHasNoDelimiter(c: Syntax, l: string)
    requires Plain(c) && Find(l, c.delimiter).Some?
    ensures !Occurs(l[..Find(l, c.delimiter).value], c.delimiter)
  {
    hide Find;
    var i := Find(l, c.delimiter).value;
    if Occurs(l[..i], c.delimiter) {
      var j := Find(l[..i], c.delimiter).value;
      assert l[..i][j..j + |c.delimiter|] == l[j..j + |c.delimiter|];
      FindIsFirst(l, c.delimiter, j);
    }
  }

  lemma ExtendedOk(c: Syntax, v: string, line: string)
    requires Plain(c) && IsValue(c, v) && IsLine(line) && !EndsValue(c, line)
    ensures IsValue(c, Extended(c, v, line))
  {
    hide Find;
    hide Trim;
    var ls :| ValueLines(c, ls) && v == Join(ls);
    var l := c.Strip(line);
    StripIsClean(c, line);
    TrimEmptyIffBlank(l);
    if Trim(l) != "" {
      JoinSnoc(ls, l);
      assert ValueLines(c, ls + [l]);
    } else {
      var last := ls[|ls| - 1];
      var longer := ls[..|ls| - 1] + [last + l];
      BlankTailIsClean(c, last, l);
      assert longer[..|longer| - 1] == ls[..|ls| - 1] && ls == ls[..|ls| - 1] + [last];
      JoinLast(longer, last, l);
      assert !Blank(last) ==> !Blank(last + l) by {
        assert last == (last + l)[..|last|];
      }
      assert ValueLines(c, longer);
    }
  }

  lemma ScannedOk(c: Syntax, st: Scan, line: string)
    requires Plain(c) && ScanOk(c, st) && IsLine(line)
    ensures ScanOk(c, Scanned(c, st, line))
  {
    hide Find;
    hide Trim;
    hide Good;
    hide Head;
    hide IsValue;
    hide EndsValue;
    hide Extended;
    if st.Running? {
      CloseOk(c, st);
      HeadOk(c, Close(st), line);
      if st.open.Some? && !EndsValue(c, line) {
        ExtendedOk(c, st.open.value.1, line);
      }
    }
  }

  lemma {:induction false} ScanAllOk(c: Syntax, st: Scan, lines: seq<string>)
    requires Plain(c) && ScanOk(c, st) && AllLines(lines)
    ensures ScanOk(c, ScanAll(c, st, lines))
    decreases |lines|
  {
    hide ScanOk;
    hide Scanned;
    if lines != [] {
      ScannedOk(c, st, lines[0]);
      ScanAllOk(c, Scanned(c, st, lines[0]), lines[1..]);
    }
  }

  lemma NewlineAt(text: string, j: nat)
    requires j < |text| && text[j] == '\n'
    ensures Find(text, "\n").Some? && Find(text, "\n").value <= j
  {
    assert text[j..j + 1] == "\n";
    FindIsFirst(text, "\n", j);
  }

  lemma CutAt(text: string, i: nat)
    requires i < |text| && text[i..i + 1] == "\n"
    ensures text == text[..i] + "\n" + text[i + 1..]
  {
    assert text[i] == text[i..i + 1][0];
  }

  lemma NewlineFound(text: string)
    ensures match Find(text, "\n")
      case None => IsLine(text)
      case Some(i) => text == text[..i] + "\n" + text[i + 1..] && IsLine(text[..i])
  {
    hide Find;
    forall j | 0 <= j < |text| && text[j] == '\n'
      ensures Find(text, "\n").Some? && Find(text, "\n").value <= j
    {
      NewlineAt(text, j);
    }
    if Find(text, "\n").Some? {
      CutAt(text, Find(text, "\n").value);
    }
  }

  /** Any text is lines, each ended by a newline, and what follows the last newline. */
  lemma {:induction false} SplitLines(text: string) returns (lines: seq<string>, last: string)
    ensures text == Unlines(lines) + last && AllLines(lines) && IsLine(last)
    decreases |text|
  {
    hide Find;
    NewlineFound(text);
    if Find(text, "\n").Some? {
      var i := Find(text, "\n").value;
      lines, last := SplitLines(text[i + 1..]);
      lines := [text[..i]] + lines;
    } else {
      lines, last := [], text;
    }
  }

  // ----- Parsing what was printed -----

  lemma {:induction false} UnlinesAppend(a: seq<string>, b: seq<string>)
    ensures Unlines(a + b) == Unlines(a) + Unlines(b)
  {
    if a == [] {
      assert a + b == b;
    } else {
      assert (a + b)[1..] == a[1..] + b;
      UnlinesAppend(a[1..], b);
    }
  }

  lemma {:induction false} ScanAppend(c: Syntax, st: Scan, a: seq<string>, b: seq<string>)
    ensures ScanAll(c, st, a + b) == ScanAll(c, ScanAll(c, st, a), b)
    decreases |a|
  {
    hide Scanned;
    if a == [] {
      assert a + b == b;
    } else {
      assert (a + b)[1..] == a[1..] + b;
      ScanAppend(c, Scanned(c, st, a[0]), a[1..], b);
    }
  }

  lemma {:induction false} UnlinesTail(l: string, ls: seq<string>)
    ensures Unlines([l] + ls) == l + Tail(ls) + "\n"
    decreases |ls|
  {
    assert ([l] + ls)[1..] == ls && Unlines([l] + ls) == l + "\n" + Unlines(ls);
    if ls == [] {
      assert l + "\n" + "" == l + "" + "\n";
    } else {
      UnlinesTail(ls[0], ls[1..]);
      assert ls == [ls[0]] + ls[1..];
      hide Unlines;
      TailStep(l, ls[0], Tail(ls[1..]));
    }
  }

  lemma TailStep(l: string, first: string, tail: string)
    ensures l + "\n" + (first + tail + "\n") == l + ("\n" + first + tail) + "\n"
  {
  }

  /** Lines fit for a value are taken into the open value unchanged. */
  lemma {:induction false} ScanContinuations(c: Syntax, m: Contents, k: string, v: string, ls: seq<string>)
    requires forall i :: 0 <= i < |ls| ==> Continuation(c, ls[i])
    ensures ScanAll(c, Running(m, Some((k, v))), ls) == Running(m, Some((k, v + Tail(ls))))
    decreases |ls|
  {
    hide Find;
    hide Trim;
    if ls == [] {
      assert v + Tail(ls) == v;
    } else {
      var l := ls[0];
      CleanStrips(c, l);
      TrimEmptyIffBlank(l);
      assert Extended(c, v, l) == v + "\n" + l;
      ScanContinuations(c, m, k, v + "\n" + l, ls[1..]);
      assert (v + "\n" + l) + Tail(ls[1..]) == v + ("\n" + l + Tail(ls[1..]));
    }
  }

  /** A pattern that does not occur before a blank stands first right behind it. */
  lemma FoundBehindBlank(k: string, pat: string, b: string)
    requires Solid(pat) && !Occurs(k, pat)
    ensures Find((k + " ") + (pat + b), pat) == Some(|k| + 1)
  {
    var f := (k + " ") + (pat + b);
    assert f[|k| + 1..|k| + 1 + |pat|] == pat;
    FindIsFirst(f, pat, |k| + 1);
    hide Find;
    var i := Find(f, pat).value;
    if i <= |k| {
      NotAcross(k, pat + b, pat, i);
    }
  }

  lemma NotAcross(k: string, b: string, pat: string, i: nat)
    requires Solid(pat) && i <= |k| && i + |pat| <= |k| + 1 + |b| && ((k + " ") + b)[i..i + |pat|] == pat
    ensures Occurs(k, pat)
  {
    var f := (k + " ") + b;
    hide Find;
    StandsAt(f, i, pat);
    assert f[|k|] == ' ';
    assert k[i..i + |pat|] == f[i..i + |pat|];
    FindIsFirst(k, pat, i);
  }

  /** The first line of a printed entry closes what is open and opens the entry. */
  lemma ScanFirst(c: Syntax, st: Scan, k: string, l: string)
    requires Plain(c) && st.Running? && Clean(c, c.delimiter) && IsKey(c, k) && Clean(c, l)
    ensures Scanned(c, st, k + " " + c.delimiter + " " + l) == Running(Close(st), Some((k + " ", " " + l)))
  {
    CleanAround(c, k, c.delimiter);
    CleanAround(c, k + " " + c.delimiter, l);
    FoundBehindBlank(k, c.delimiter, " " + l);
    FirstLineSplits(k, c.delimiter, l);
    hide Find;
    hide Scanned;
    ScanKeyLine(c, st, k + " " + c.delimiter + " " + l, k + " ", " " + l);
  }

  lemma ScanKeyLine(c: Syntax, st: Scan, f: string, k: string, v: string)
    requires st.Running? && Clean(c, f) && Find(f, c.delimiter) == Some(|k|)
    requires f[..|k|] == k && f[|k| + |c.delimiter|..] == v
    ensures Scanned(c, st, f) == Running(Close(st), Some((k, v)))
  {
    hide Find;
    hide Close;
    KeyLineIsHead(c, if st.open.None? then st.contents else Close(st), f, k, v);
    NothingToClose(st);
    hide Head;
    hide EndsValue;
  }

  lemma NothingToClose(st: Scan)
    ensures st.Running? && st.open.None? ==> Close(st) == st.contents
  {
  }

  lemma KeyLineIsHead(c: Syntax, m: Contents, f: string, k: string, v: string)
    requires Clean(c, f) && Find(f, c.delimiter) == Some(|k|)
    requires f[..|k|] == k && f[|k| + |c.delimiter|..] == v
    ensures Head(c, m, f) == Running(m, Some((k, v))) && EndsValue(c, f)
  {
    CleanStrips(c, f);
    hide Find;
    hide Trim;
  }

  lemma FirstLineSplits(k: string, d: string, l: string)
    ensures var f := k + " " + d + " " + l;
      f == (k + " ") + (d + (" " + l)) && f[..|k| + 1] == k + " " && f[|k| + 1 + |d|..] == " " + l
  {
  }

  /** A printed entry is lines that leave the entry open. */
  lemma ScanEntry(c: Syntax, k: string, v: string) returns (ls: seq<string>)
    requires Plain(c) && Clean(c, c.delimiter) && IsKey(c, k) && IsValue(c, v)
    ensures AllLines(ls) && PrintedEntry(c, k, v) == Unlines(ls)
    ensures forall st: Scan :: st.Running? ==> ScanAll(c, st, ls) == Running(Close(st), Some((k + " ", " " + v)))
  {
    hide Find;
    hide Scanned;
    var vs :| ValueLines(c, vs) && v == Join(vs);
    var f := k + " " + c.delimiter + " " + vs[0];
    ls := [f] + vs[1..];
    CleanAround(c, k, c.delimiter);
    CleanAround(c, k + " " + c.delimiter, vs[0]);
    UnlinesTail(f, vs[1..]);
    assert PrintedEntry(c, k, v) == f + Tail(vs[1..]) + "\n";
    forall st: Scan | st.Running?
      ensures ScanAll(c, st, ls) == Running(Close(st), Some((k + " ", " " + v)))
    {
      ScanFirst(c, st, k, vs[0]);
      assert ls[0] == f && ls[1..] == vs[1..];
      ScanContinuations(c, Close(st), k + " ", " " + vs[0], vs[1..]);
      assert " " + vs[0] + Tail(vs[1..]) == " " + v;
    }
  }

  lemma TrimBack(t: string)
    requires Trimmed(t)
    ensures Trim(t + " ") == t && Trim(" " + t) == t
  {
    TrimIs("", t, " ");
    TrimIs(" ", t, "");
    assert "" + t + " " == t + " " && " " + t + "" == " " + t;
  }

  /** The contents restricted to the keys of `order`. */
  ghost function Restricted(m: Contents, order: seq<string>): Contents {
    map k | k in m && k in order :: m[k]
  }

  lemma {:induction false} ScanPrinted(c: Syntax, m: Contents, order: seq<string>) returns (ls: seq<string>)
    requires Plain(c) && Good(c, m) && forall k :: k in order ==> k in m
    ensures AllLines(ls) && Printed(c, m, order) == Unlines(ls)
    ensures var st := ScanAll(c, Running(map[], None), ls); st.Running? && Close(st) == Restricted(m, order)
    decreases |order|
  {
    hide Find;
    hide Trim;
    hide Scanned;
    hide Clean;
    hide IsKey;
    hide IsValue;
    if order == [] {
      ls := [];
    } else {
      var front, k := order[..|order| - 1], order[|order| - 1];
      var before := ScanPrinted(c, m, front);
      var entry := ScanEntry(c, k, m[k]);
      ls := before + entry;
      UnlinesAppend(before, entry);
      ScanAppend(c, Running(map[], None), before, entry);
      TrimBack(k);
      TrimBack(m[k]);
      assert order == front + [k];
    }
  }

  lemma ParseIsScan(c: Syntax, lines: seq<string>, last: string, m: Contents)
    requires Plain(c) && AllLines(lines) && IsLine(last)
    ensures Parse(c, Unlines(lines) + last, m) == Ended(c, ScanAll(c, Running(m, None), lines), last)
  {
    EmptyLine(c, m);
    AtHead(c, lines, last, "", m);
  }

  lemma ParseIsGood(c: Syntax, text: string)
    requires Plain(c)
    ensures Good(c, Parse(c, text, map[]))
  {
    hide Find;
    hide ReadAll;
    hide Scanned;
    hide Good;
    var lines, last := SplitLines(text);
    ParseIsScan(c, lines, last, map[]);
    var st := Running(map[], None);
    assert ScanOk(c, st) by {
      EmptyIsGood(c);
    }
    ScanAllOk(c, st, lines);
    st := ScanAll(c, st, lines);
    ScannedOk(c, st, last);
    StripIsLine(c, last);
    ScannedOk(c, Scanned(c, st, last), c.Strip(last));
    CloseOk(c, st);
    CloseOk(c, Scanned(c, st, last));
    CloseOk(c, Scanned(c, Scanned(c, st, last), c.Strip(last)));
    hide ScanOk;
    hide Close;
  }

  lemma EmptyIsGood(c: Syntax)
    ensures Good(c, map[])
  {
  }

  lemma StripIsLine(c: Syntax, line: string)
    requires IsLine(line)
    ensures IsLine(c.Strip(line))
  {
  }

  /** Printing sets every key of the contents to its value, for all contents of the shape that parsing yields. */
  lemma PrintedParses(c: Syntax, m: Contents, order: seq<string>)
    requires Plain(c) && Good(c, m) && Lists(order, m)
    ensures Parse(c, Printed(c, m, order), map[]) == m
  {
    hide Find;
    hide ReadAll;
    hide Scanned;
    hide Good;
    hide Parse;
    var ls := ScanPrinted(c, m, order);
    ParseIsScan(c, ls, "", map[]);
    assert Unlines(ls) + "" == Unlines(ls);
    assert Restricted(m, order) == m;
  }

  /** Parsing what was printed gives back what was parsed, for every text and every order of printing. */
  lemma RoundTrip(c: Syntax, text: string, order: seq<string>)
    requires Plain(c) && Lists(order, Parse(c, text, map[]))
    ensures Parse(c, Printed(c, Parse(c, text, map[]), order), map[]) == Parse(c, text, map[])
  {
    hide Good;
    hide Parse;
    ParseIsGood(c, text);
    PrintedParses(c, Parse(c, text, map[]), order);
  }

  // ----- A last line without a newline -----

  function Solids(s: string): nat {
    if s == "" then 0 else (if IsBlank(s[0]) then 0 else 1) + Solids(s[1..])
  }

  lemma {:induction false} SolidsAdd(a: string, b: string)
    ensures Solids(a + b) == Solids(a) + Solids(b)
  {
    if a == "" {
      assert a + b == b;
    } else {
      assert (a + b)[1..] == a[1..] + b;
      SolidsAdd(a[1..], b);
    }
  }

  lemma {:induction false} SolidsOfBlank(s: string)
    ensures Solids(s) == 0 <==> Blank(s)
  {
    if s != "" {
      SolidsOfBlank(s[1..]);
      assert Blank(s) <==> IsBlank(s[0]) && Blank(s[1..]) by {
        assert forall i :: 0 <= i < |s[1..]| ==> s[1..][i] == s[i + 1];
        if IsBlank(s[0]) && Blank(s[1..]) {
          assert forall i :: 0 < i < |s| ==> s[i] == s[1..][i - 1];
        }
      }
    }
  }

  lemma SolidsOfTrim(s: string)
    ensures Solids(Trim(s)) == Solids(s)
  {
    var a, b := TrimSplits(s);
    SolidsAdd(a + Trim(s), b);
    SolidsAdd(a, Trim(s));
    SolidsOfBlank(a);
    SolidsOfBlank(b);
  }

  /** The last line would be taken into an open value, and is not blank once its comment is gone. */
  predicate LastContinues(c: Syntax, st: Scan, last: string) {
    st.Running? && st.open.Some? && !EndsValue(c, last) && Trim(c.Strip(last)) != ""
  }

  lemma DoublingShows(c: Syntax, st: Scan, last: string)
    requires Plain(c) && LastContinues(c, st, last)
    ensures Close(Scanned(c, Scanned(c, st, last), c.Strip(last))) != Close(Scanned(c, st, last))
  {
    var l, k, v := c.Strip(last), st.open.value.0, st.open.value.1;
    StripTwice(c, last);
    var w := v + "\n" + l;
    var x := w + "\n" + l;
    SolidsAdd(w + "\n", l);
    SolidsAdd(w, "\n");
    SolidsOfTrim(w);
    SolidsOfTrim(x);
    SolidsOfBlank(l);
    TrimEmptyIffBlank(l);
    hide Find;
    hide Trim;
    hide Solids;
    assert Close(Scanned(c, st, last))[Trim(k)] == Trim(w);
    assert Close(Scanned(c, Scanned(c, st, last), l))[Trim(k)] == Trim(x);
  }

  lemma BlankChangesNothing(c: Syntax, st: Scan, last: string)
    requires Plain(c) && st.Running? && st.open.Some? && !EndsValue(c, last) && Trim(c.Strip(last)) == ""
    ensures Close(Scanned(c, Scanned(c, st, last), c.Strip(last))) == Close(Scanned(c, st, last))
  {
    BlankLine(c, Close(Scanned(c, st, last)), c.Strip(last));
    hide Find;
    hide Trim;
    hide Head;
  }

  /**
   * Leaving out the newline after the last line makes a difference exactly when that line continues a value:
   * the line is then stored twice.
   */
  lemma MissingNewline(c: Syntax, lines: seq<string>, last: string, m: Contents)
    requires Plain(c) && AllLines(lines) && IsLine(last) && last != ""
    ensures Parse(c, Unlines(lines) + last, m) == Parse(c, Unlines(lines) + last + "\n", m)
      <==> !LastContinues(c, ScanAll(c, Running(m, None), lines), last)
  {
    hide Find;
    hide Trim;
    hide Scanned;
    hide Parse;
    var start := Running(m, None);
    var st := ScanAll(c, start, lines);
    ParseIsScan(c, lines, last, m);
    ParseIsScan(c, lines + [last], "", m);
    UnlinesAppend(lines, [last]);
    assert Unlines([last]) == last + "\n";
    assert Unlines(lines + [last]) + "" == Unlines(lines) + last + "\n";
    ScanAppend(c, start, lines, [last]);
    assert ScanAll(c, st, [last]) == Scanned(c, st, last);
    if LastContinues(c, st, last) {
      DoublingShows(c, st, last);
    } else if st.Running? && st.open.Some? && !EndsValue(c, last) {
      BlankChangesNothing(c, st, last);
    }
  }

  lemma AbsentChar(s: string, pat: string)
    requires |pat| == 1 && pat[0] !in s
    ensures !Occurs(s, pat)
  {
    if Occurs(s, pat) {
      StandsAt(s, Find(s, pat).value, pat);
    }
  }

  lemma ExampleScan(c: Syntax)
    requires c == Syntax("=", "#", "")
    ensures ScanAll(c, Running(map[], None), ["a=b"]) == Running(map[], Some(("a", "b")))
  {
    AbsentChar("a=b", "#");
    assert Find("a=b", "=") == Some(1) by {
      assert !("=" <= "a=b") && "a=b"[1..] == "=b";
    }
    assert "a=b"[..1] == "a" && "a=b"[2..] == "b";
    hide Find;
    assert ["a=b"][1..] == [];
  }

  lemma ExampleContinues(c: Syntax)
    requires c == Syntax("=", "#", "")
    ensures LastContinues(c, Running(map[], Some(("a", "b"))), "c")
  {
    AbsentChar("c", "#");
    AbsentChar("c", "=");
    TrimIs("", "c", "");
    assert "" + "c" + "" == "c";
    hide Find;
    hide Trim;
  }

  /** For instance `c` below is stored twice. */
  lemma MissingNewlineDoubles()
    ensures var c := Syntax("=", "#", ""); Parse(c, "a=b\nc", map[]) != Parse(c, "a=b\nc\n", map[])
  {
    hide Parse;
    hide ScanAll;
    hide LastContinues;
    var c := Syntax("=", "#", "");
    ExampleScan(c);
    ExampleContinues(c);
    assert Unlines(["a=b"]) == "a=b\n";
    MissingNewline(c, ["a=b"], "c", map[]);
    assert "a=b\n" + "c" == "a=b\nc" && "a=b\nc" + "\n" == "a=b\nc\n";
  }
}
