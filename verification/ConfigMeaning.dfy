/** What a configuration text means: which keys it sets, and to which values. */
module ConfigMeaning {
  import opened Wrappers
  import opened ConfigText
  import opened ConfigParser
  import opened ConfigLines
  import opened ConfigRoundTrip
  import opened Sequences

  // ----- Comments and delimiters, in terms of characters -----

  predicate Stands(s: string, pat: string, i: int) {
    0 <= i <= i + |pat| <= |s| && s[i..i + |pat|] == pat
  }

  /** `pat` stands in `s` at `i` and nowhere before. */
  ghost predicate FirstAt(s: string, pat: string, i: int) {
    Stands(s, pat, i) && forall k :: 0 <= k < i ==> !Stands(s, pat, k)
  }

  lemma FindMeans(s: string, pat: string)
    ensures forall i :: FirstAt(s, pat, i) <==> Find(s, pat) == Some(i)
    ensures Occurs(s, pat) <==> exists i :: Stands(s, pat, i)
  {
    var r := Find(s, pat);
    assert r.Some? ==> Stands(s, pat, r.value);
    hide Find;
    forall i: nat | Stands(s, pat, i)
      ensures r.Some? && r.value <= i
    {
      FindIsFirst(s, pat, i);
    }
  }

  /** A comment reaches from the first comment sign to the end of the line. */
  lemma StripMeans(c: Syntax, line: string)
    ensures forall i :: FirstAt(line, c.comment, i) ==> c.Strip(line) == line[..i]
    ensures (forall i :: !FirstAt(line, c.comment, i)) ==> c.Strip(line) == line
  {
    FindMeans(line, c.comment);
    hide Find;
  }

  // ----- Key lines and values -----

  predicate IsKeyLine(c: Syntax, line: string) {
    Occurs(c.Strip(line), c.delimiter)
  }

  predicate HasStop(c: Syntax, line: string) {
    c.HasSentry(c.Strip(line))
  }

  /** What stands before the first delimiter, trimmed. */
  function KeyOf(c: Syntax, line: string): string {
    match Find(c.Strip(line), c.delimiter)
    case None => ""
    case Some(i) => Trim(c.Strip(line)[..i])
  }

  /** What stands behind it. */
  function FirstPart(c: Syntax, line: string): string {
    match Find(c.Strip(line), c.delimiter)
    case None => ""
    case Some(i) => c.Strip(line)[i + |c.delimiter|..]
  }

  predicate EndsLine(c: Syntax, line: string) {
    Blank(line) || IsKeyLine(c, line) || HasStop(c, line)
  }

  lemma EndsLineMeans(c: Syntax, line: string)
    ensures EndsLine(c, line) <==> EndsValue(c, line)
  {
    TrimEmptyIffBlank(line);
    hide Trim;
    hide Find;
  }

  /** The lines up to the first that is blank, has a key or the sentry. */
  function Continued(c: Syntax, lines: seq<string>): (ls: seq<string>)
    ensures ls <= lines
  {
    if lines == [] || EndsLine(c, lines[0]) then [] else [lines[0]] + Continued(c, lines[1..])
  }

  /** Each line without its comment; a newline in front of it unless nothing but a comment is there. */
  function Joined(c: Syntax, ls: seq<string>): string {
    if ls == [] then ""
    else
      var l := c.Strip(ls[|ls| - 1]);
      Joined(c, ls[..|ls| - 1]) + (if Trim(l) == "" then "" else "\n") + l
  }

  /** The value that a key line starts and the lines behind it continue. */
  function ValueOf(c: Syntax, line: string, behind: seq<string>): string {
    Trim(FirstPart(c, line) + Joined(c, Continued(c, behind)))
  }

  /** The index of the last key line among the first `n`. */
  function LastKeyBelow(c: Syntax, lines: seq<string>, n: nat): (r: Option<nat>)
    requires n <= |lines|
    ensures r.Some? ==> r.value < n
  {
    if n == 0 then None
    else if IsKeyLine(c, lines[n - 1]) then Some(n - 1)
    else LastKeyBelow(c, lines, n - 1)
  }

  function LastKey(c: Syntax, lines: seq<string>): (r: Option<nat>)
    ensures r.Some? ==> r.value < |lines|
  {
    LastKeyBelow(c, lines, |lines|)
  }

  lemma {:induction false} LastKeyIs(c: Syntax, lines: seq<string>, n: nat)
    requires n <= |lines|
    ensures var r := LastKeyBelow(c, lines, n);
      if r.Some? then IsKeyLine(c, lines[r.value]) && forall i :: r.value < i < n ==> !IsKeyLine(c, lines[i])
      else forall i :: 0 <= i < n ==> !IsKeyLine(c, lines[i])
  {
    hide IsKeyLine;
    if n > 0 {
      LastKeyIs(c, lines, n - 1);
    }
  }

  lemma {:induction false} LastKeyPrefix(c: Syntax, a: seq<string>, b: seq<string>, n: nat)
    requires n <= |a| <= |b| && a <= b
    ensures LastKeyBelow(c, a, n) == LastKeyBelow(c, b, n)
  {
    hide IsKeyLine;
    if n > 0 {
      LastKeyPrefix(c, a, b, n - 1);
    }
  }

  /** What the lines before the last key line set, and that key set to its value. */
  function Meaning(c: Syntax, lines: seq<string>): Contents
    decreases |lines|
  {
    match LastKey(c, lines)
    case None => map[]
    case Some(i) => Meaning(c, lines[..i])[KeyOf(c, lines[i]) := ValueOf(c, lines[i], lines[i + 1..])]
  }

  /** The lines before the first that has the sentry. */
  function Seen(c: Syntax, lines: seq<string>): (ls: seq<string>)
    ensures ls <= lines && (forall i :: 0 <= i < |ls| ==> !HasStop(c, ls[i]))
    ensures |ls| < |lines| ==> HasStop(c, lines[|ls|])
  {
    if lines == [] || HasStop(c, lines[0]) then [] else [lines[0]] + Seen(c, lines[1..])
  }

  // ----- The parser computes it -----

  /** The automaton after these lines. */
  ghost predicate Means(c: Syntax, lines: seq<string>, st: Scan) {
    && st.Running? && Close(st) == Meaning(c, lines)
    && match st.open
       case None => var i := LastKey(c, lines); i.Some? ==> Continued(c, lines[i.value + 1..]) != lines[i.value + 1..]
       case Some((k, v)) =>
         var i := LastKey(c, lines);
         && i.Some? && Continued(c, lines[i.value + 1..]) == lines[i.value + 1..]
         && Trim(k) == KeyOf(c, lines[i.value]) && v == FirstPart(c, lines[i.value]) + Joined(c, lines[i.value + 1..])
         && st.contents == Meaning(c, lines[..i.value])
  }

  lemma {:induction false} ContinuedSnoc(c: Syntax, lines: seq<string>, l: string)
    ensures Continued(c, lines) != lines ==> Continued(c, lines + [l]) == Continued(c, lines)
    ensures Continued(c, lines) == lines ==> Continued(c, lines + [l]) == if EndsLine(c, l) then lines else lines + [l]
    ensures Continued(c, lines + [l]) == lines + [l] <==> Continued(c, lines) == lines && !EndsLine(c, l)
  {
    hide EndsLine;
    if lines != [] {
      assert (lines + [l])[1..] == lines[1..] + [l];
      ContinuedSnoc(c, lines[1..], l);
      assert lines == [lines[0]] + lines[1..];
    } else {
      assert lines + [l] == [l];
      assert Continued(c, [l][1..]) == [];
    }
  }

  lemma JoinedSnoc(c: Syntax, ls: seq<string>, l: string, v: string)
    ensures v + Joined(c, ls + [l]) == Extended(c, v + Joined(c, ls), l)
  {
    assert (ls + [l])[..|ls|] == ls;
    hide Trim;
    var s := c.Strip(l);
    var n := if Trim(s) == "" then "" else "\n";
    Associates(v, Joined(c, ls) + n, s);
    Associates(v, Joined(c, ls), n);
    assert v + Joined(c, ls) + "" == v + Joined(c, ls);
  }

  lemma KeyLineNext(c: Syntax, lines: seq<string>, l: string)
    requires IsKeyLine(c, l)
    ensures LastKey(c, lines + [l]) == Some(|lines|)
    ensures Meaning(c, lines + [l]) == Meaning(c, lines)[KeyOf(c, l) := Trim(FirstPart(c, l))]
  {
    hide Find;
    hide Trim;
    hide IsKeyLine;
    hide KeyOf;
    hide FirstPart;
    assert (lines + [l])[..|lines|] == lines && (lines + [l])[|lines| + 1..] == [];
    assert FirstPart(c, l) + Joined(c, Continued(c, [])) == FirstPart(c, l);
  }

  lemma OtherLineNext(c: Syntax, lines: seq<string>, l: string)
    requires !IsKeyLine(c, l)
    ensures LastKey(c, lines + [l]) == LastKey(c, lines)
  {
    hide IsKeyLine;
    LastKeyPrefix(c, lines, lines + [l], |lines|);
  }

  lemma MeaningNone(c: Syntax, lines: seq<string>)
    requires LastKey(c, lines).None?
    ensures Meaning(c, lines) == map[]
  {
    hide LastKey;
  }

  lemma MeaningSome(c: Syntax, lines: seq<string>, i: nat)
    requires LastKey(c, lines) == Some(i)
    ensures Meaning(c, lines) == Meaning(c, lines[..i])[KeyOf(c, lines[i]) := ValueOf(c, lines[i], lines[i + 1..])]
  {
    hide LastKey;
    hide KeyOf;
    hide ValueOf;
  }

  /** A further line without key or sentry. */
  lemma OtherLineMeans(c: Syntax, lines: seq<string>, l: string, i: nat)
    requires !IsKeyLine(c, l) && LastKey(c, lines) == Some(i)
    ensures LastKey(c, lines + [l]) == Some(i)
    ensures Meaning(c, lines + [l]) == Meaning(c, lines[..i])[KeyOf(c, lines[i]) := ValueOf(c, lines[i], lines[i + 1..] + [l])]
    ensures (lines + [l])[i + 1..] == lines[i + 1..] + [l] && (lines + [l])[..i] == lines[..i]
  {
    hide IsKeyLine;
    hide LastKey;
    hide KeyOf;
    hide ValueOf;
    hide Meaning;
    OtherLineNext(c, lines, l);
    MeaningSome(c, lines + [l], i);
    assert (lines + [l])[..i] == lines[..i] && (lines + [l])[i] == lines[i];
    assert (lines + [l])[i + 1..] == lines[i + 1..] + [l];
  }

  /** The automaton keeps to the meaning, line by line. */
  lemma MeansStep(c: Syntax, lines: seq<string>, l: string, st: Scan)
    requires Means(c, lines, st) && !HasStop(c, l)
    ensures Means(c, lines + [l], Scanned(c, st, l))
  {
    if IsKeyLine(c, l) {
      KeyLineStep(c, lines, l, st);
    } else if st.open.Some? && !EndsValue(c, l) {
      ContinuedStep(c, lines, l, st);
    } else {
      EndedStep(c, lines, l, st);
    }
  }

  lemma KeyLineStep(c: Syntax, lines: seq<string>, l: string, st: Scan)
    requires Means(c, lines, st) && IsKeyLine(c, l) && !HasStop(c, l)
    ensures Means(c, lines + [l], Scanned(c, st, l))
  {
    KeyLineScanned(c, l, st);
    hide Find;
    hide Trim;
    hide IsKeyLine;
    hide HasStop;
    hide KeyOf;
    hide FirstPart;
    hide Scanned;
    hide Meaning;
    hide LastKey;
    hide Continued;
    hide Joined;
    KeyLineNext(c, lines, l);
    NothingBehind(c, lines, l);
  }

  lemma NothingBehind(c: Syntax, lines: seq<string>, l: string)
    ensures (lines + [l])[|lines| + 1..] == [] && (lines + [l])[..|lines|] == lines
    ensures Continued(c, []) == [] && FirstPart(c, l) + Joined(c, []) == FirstPart(c, l)
  {
    hide FirstPart;
  }

  lemma KeyLineScanned(c: Syntax, l: string, st: Scan)
    requires st.Running? && IsKeyLine(c, l) && !HasStop(c, l)
    ensures var st' := Scanned(c, st, l);
      && st'.Running? && st'.contents == Close(st) && st'.open.Some? && Trim(st'.open.value.0) == KeyOf(c, l)
      && st'.open.value.1 == FirstPart(c, l)
  {
    hide Find;
    hide Trim;
  }

  lemma ContinuedStep(c: Syntax, lines: seq<string>, l: string, st: Scan)
    requires Means(c, lines, st) && !IsKeyLine(c, l) && st.open.Some? && !EndsValue(c, l)
    ensures Means(c, lines + [l], Scanned(c, st, l))
  {
    hide Find;
    hide Trim;
    hide IsKeyLine;
    hide KeyOf;
    hide FirstPart;
    hide Joined;
    hide Extended;
    hide EndsValue;
    hide EndsLine;
    hide LastKey;
    hide Meaning;
    hide Continued;
    var i := LastKey(c, lines).value;
    EndsLineMeans(c, l);
    OtherLineMeans(c, lines, l, i);
    ContinuedSnoc(c, lines[i + 1..], l);
    JoinedSnoc(c, lines[i + 1..], l, FirstPart(c, lines[i]));
    assert (lines + [l])[i] == lines[i];
  }

  lemma EndedStep(c: Syntax, lines: seq<string>, l: string, st: Scan)
    requires Means(c, lines, st) && !IsKeyLine(c, l) && !HasStop(c, l) && (st.open.Some? ==> EndsValue(c, l))
    ensures Means(c, lines + [l], Scanned(c, st, l))
  {
    assert Scanned(c, st, l) == Running(Close(st), None);
    hide Find;
    hide Trim;
    hide Scanned;
    hide Close;
    hide IsKeyLine;
    hide HasStop;
    hide KeyOf;
    hide FirstPart;
    hide Joined;
    hide EndsValue;
    hide EndsLine;
    hide LastKey;
    hide Continued;
    hide Meaning;
    EndsLineMeans(c, l);
    OtherLineNext(c, lines, l);
    if LastKey(c, lines).Some? {
      var i := LastKey(c, lines).value;
      OtherLineMeans(c, lines, l, i);
      MeaningSome(c, lines, i);
      ContinuedSnoc(c, lines[i + 1..], l);
    } else {
      MeaningNone(c, lines);
      MeaningNone(c, lines + [l]);
    }
  }

  lemma {:induction false} ScanMeans(c: Syntax, lines: seq<string>)
    requires forall i :: 0 <= i < |lines| ==> !HasStop(c, lines[i])
    ensures Means(c, lines, ScanAll(c, Running(map[], None), lines))
    decreases |lines|
  {
    hide HasStop;
    hide Scanned;
    if lines == [] {
      MeaningNone(c, []);
    } else {
      var front, l := lines[..|lines| - 1], lines[|lines| - 1];
      ScanMeans(c, front);
      assert lines == front + [l];
      ScanAppend(c, Running(map[], None), front, [l]);
      var st := ScanAll(c, Running(map[], None), front);
      MeansStep(c, front, l, st);
      assert ScanAll(c, st, [l]) == ScanAll(c, Scanned(c, st, l), [l][1..]) && [l][1..] == [];
      hide Means;
    }
  }

  lemma StopLine(c: Syntax, l: string, st: Scan)
    requires st.Running? && HasStop(c, l)
    ensures Scanned(c, st, l) == Stopped(Close(st))
  {
    hide Find;
    hide Trim;
    assert EndsValue(c, l);
  }

  lemma ScanStops(c: Syntax, lines: seq<string>)
    ensures Close(ScanAll(c, Running(map[], None), lines)) == Meaning(c, Seen(c, lines))
  {
    hide Scanned;
    hide HasStop;
    hide Meaning;
    hide Means;
    hide Close;
    hide Seen;
    hide ScanAll;
    var seen, st := Seen(c, lines), Running(map[], None);
    ScanMeans(c, seen);
    MeansClosed(c, seen, ScanAll(c, st, seen));
    if |seen| < |lines| {
      var rest := lines[|seen|..];
      assert lines == seen + rest && rest == [lines[|seen|]] + rest[1..];
      ScanAppend(c, st, seen, rest);
      StopLine(c, lines[|seen|], ScanAll(c, st, seen));
      FirstScanned(c, ScanAll(c, st, seen), rest);
      ScanStopped(c, Close(ScanAll(c, st, seen)), rest[1..]);
      StoppedCloses(Close(ScanAll(c, st, seen)));
    } else {
      assert seen == lines;
    }
  }

  lemma MeansClosed(c: Syntax, lines: seq<string>, st: Scan)
    requires Means(c, lines, st)
    ensures st.Running? && Close(st) == Meaning(c, lines)
  {
    hide Meaning;
    hide Close;
  }

  lemma FirstScanned(c: Syntax, st: Scan, lines: seq<string>)
    requires lines != []
    ensures ScanAll(c, st, lines) == ScanAll(c, Scanned(c, st, lines[0]), lines[1..])
  {
    hide Scanned;
  }

  lemma StoppedCloses(m: Contents)
    ensures Close(Stopped(m)) == m
  {
  }

  /** Parsing a text of whole lines gives what the lines before the sentry mean. */
  lemma ParseIsMeaning(c: Syntax, lines: seq<string>)
    requires Plain(c) && AllLines(lines)
    ensures Parse(c, Unlines(lines), map[]) == Meaning(c, Seen(c, lines))
  {
    hide Parse;
    hide Meaning;
    hide Seen;
    hide Unlines;
    hide AllLines;
    hide Plain;
    hide ScanAll;
    hide Scanned;
    hide EndsValue;
    hide Close;
    ParseIsScan(c, lines, "", map[]);
    assert Unlines(lines) + "" == Unlines(lines);
    ScanStops(c, lines);
  }

  // ----- Which keys, and which values -----

  /** A line that ends a value ends it wherever the text goes on. */
  lemma {:induction false} ContinuedCut(c: Syntax, behind: seq<string>, n: nat)
    requires n < |behind| && EndsLine(c, behind[n])
    ensures Continued(c, behind[..n]) == Continued(c, behind)
  {
    hide EndsLine;
    if n > 0 {
      assert behind[..n][1..] == behind[1..][..n - 1] && behind[1..][n - 1] == behind[n];
      ContinuedCut(c, behind[1..], n - 1);
    }
  }

  /** Line `i` is the last that gives key `k`. */
  ghost predicate LastFor(c: Syntax, lines: seq<string>, i: int, k: string) {
    && 0 <= i < |lines| && IsKeyLine(c, lines[i]) && KeyOf(c, lines[i]) == k
    && forall j :: i < j < |lines| && IsKeyLine(c, lines[j]) ==> KeyOf(c, lines[j]) != k
  }

  /**
   * A key is set exactly if some line gives it, and its value is the one that the last such line starts: what stands behind
   * the delimiter, and the lines that follow up to the first that is blank, has a key or the sentry, or is not there.
   */
  lemma {:induction false} KeysAndValues(c: Syntax, lines: seq<string>, k: string)
    ensures k in Meaning(c, lines) <==> exists i :: LastFor(c, lines, i, k)
    ensures forall i :: LastFor(c, lines, i, k) ==> k in Meaning(c, lines) && Meaning(c, lines)[k] == ValueOf(c, lines[i], lines[i + 1..])
    decreases |lines|
  {
    hide IsKeyLine;
    hide KeyOf;
    hide ValueOf;
    hide LastKey;
    LastKeyIs(c, lines, |lines|);
    assert LastKey(c, lines) == LastKeyBelow(c, lines, |lines|) by {
      LastKeyDef(c, lines);
    }
    match LastKey(c, lines) {
      case None => MeaningNone(c, lines);
      case Some(n) =>
        MeaningSome(c, lines, n);
        KeysAndValues(c, lines[..n], k);
        hide Meaning;
        if KeyOf(c, lines[n]) == k {
          LastForHere(c, lines, n, k);
        } else {
          LastForCut(c, lines, n, k);
        }
        hide LastFor;
    }
  }

  lemma LastKeyDef(c: Syntax, lines: seq<string>)
    ensures LastKey(c, lines) == LastKeyBelow(c, lines, |lines|)
  {
    hide IsKeyLine;
  }

  lemma LastForHere(c: Syntax, lines: seq<string>, n: nat, k: string)
    requires n < |lines| && IsKeyLine(c, lines[n]) && KeyOf(c, lines[n]) == k
    requires forall j :: n < j < |lines| ==> !IsKeyLine(c, lines[j])
    ensures LastFor(c, lines, n, k) && forall i :: LastFor(c, lines, i, k) ==> i == n
  {
    hide IsKeyLine;
    hide KeyOf;
  }

  lemma LastForCut(c: Syntax, lines: seq<string>, n: nat, k: string)
    requires n < |lines| && IsKeyLine(c, lines[n]) && KeyOf(c, lines[n]) != k
    requires forall j :: n < j < |lines| ==> !IsKeyLine(c, lines[j])
    ensures forall i :: LastFor(c, lines, i, k) <==> LastFor(c, lines[..n], i, k)
    ensures forall i :: LastFor(c, lines[..n], i, k) ==> ValueOf(c, lines[i], lines[..n][i + 1..]) == ValueOf(c, lines[i], lines[i + 1..])
  {
    hide IsKeyLine;
    hide KeyOf;
    hide ValueOf;
    forall i | LastFor(c, lines[..n], i, k)
      ensures ValueOf(c, lines[i], lines[..n][i + 1..]) == ValueOf(c, lines[i], lines[i + 1..])
    {
      ValueCut(c, lines, n, i);
    }
  }

  lemma ValueCut(c: Syntax, lines: seq<string>, n: nat, i: nat)
    requires i < n < |lines| && IsKeyLine(c, lines[n])
    ensures ValueOf(c, lines[i], lines[..n][i + 1..]) == ValueOf(c, lines[i], lines[i + 1..])
  {
    assert EndsLine(c, lines[n]);
    hide IsKeyLine;
    hide EndsLine;
    hide FirstPart;
    hide Trim;
    hide Joined;
    assert lines[..n][i + 1..] == lines[i + 1..][..n - i - 1] && lines[i + 1..][n - i - 1] == lines[n];
    ContinuedCut(c, lines[i + 1..], n - i - 1);
  }

  /** What a text sets: the two together. */
  lemma TextMeans(c: Syntax, lines: seq<string>, k: string)
    requires Plain(c) && AllLines(lines)
    ensures var (m, seen) := (Parse(c, Unlines(lines), map[]), Seen(c, lines));
      && (k in m <==> exists i :: LastFor(c, seen, i, k))
      && forall i :: LastFor(c, seen, i, k) ==> k in m && m[k] == ValueOf(c, seen[i], seen[i + 1..])
  {
    hide Parse;
    hide Meaning;
    hide Seen;
    hide LastFor;
    hide ValueOf;
    hide Plain;
    ParseIsMeaning(c, lines);
    KeysAndValues(c, Seen(c, lines), k);
  }
}
