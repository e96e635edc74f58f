/** Searching and trimming strings, lines, and the input stream `std::getline` reads from. */
module ConfigText {
  import opened Wrappers

  // ----- Searching -----

  /** `std::string::find`. */
  function Find(s: string, pat: string): (r: Option<nat>)
    ensures r.Some? ==> var i := r.value; i + |pat| <= |s| && s[i..i + |pat|] == pat
  {
    if pat <= s then
      assert s[..|pat|] == pat;
      Some(0)
    else if s == "" then None
    else
      match Find(s[1..], pat)
      case None => None
      case Some(i) =>
        assert s[1..][i..i + |pat|] == s[i + 1..i + 1 + |pat|];
        Some(i + 1)
  }

  predicate Occurs(s: string, pat: string) {
    Find(s, pat).Some?
  }

  lemma StandsAt(s: string, i: nat, pat: string)
    requires i + |pat| <= |s| && s[i..i + |pat|] == pat
    ensures forall k :: i <= k < i + |pat| ==> s[k] == pat[k - i]
    ensures pat != "" ==> s[i] == pat[0]
  {
    assert forall k :: i <= k < i + |pat| ==> s[i..i + |pat|][k - i] == s[k];
  }

  /** `Find` is the first place where the pattern stands. */
  lemma {:induction false} FindIsFirst(s: string, pat: string, i: nat)
    requires i + |pat| <= |s| && s[i..i + |pat|] == pat
    ensures Find(s, pat).Some? && Find(s, pat).value <= i
  {
    if i == 0 {
      assert pat <= s;
    } else if !(pat <= s) {
      assert s[1..][i - 1..i - 1 + |pat|] == s[i..i + |pat|];
      FindIsFirst(s[1..], pat, i - 1);
    }
  }

  /** What does not occur in a string does not occur in a part of it. */
  lemma PartOccurs(s: string, a: nat, b: nat, pat: string)
    requires a <= b <= |s| && Occurs(s[a..b], pat)
    ensures Occurs(s, pat)
  {
    var i := Find(s[a..b], pat).value;
    StandsAt(s[a..b], i, pat);
    assert forall k :: a + i <= k < a + i + |pat| ==> s[k] == s[a..b][k - a];
    assert s[a + i..a + i + |pat|] == pat;
    FindIsFirst(s, pat, a + i);
  }

  // ----- White space -----

  predicate IsBlank(c: char) {
    c == ' ' || '\t' <= c <= '\r'
  }

  predicate Blank(s: string) {
    forall i :: 0 <= i < |s| ==> IsBlank(s[i])
  }

  predicate Solid(s: string) {
    s != "" && forall i :: 0 <= i < |s| ==> !IsBlank(s[i])
  }

  function TrimLeft(s: string): string {
    if s != "" && IsBlank(s[0]) then TrimLeft(s[1..]) else s
  }

  function TrimRight(s: string): string {
    if s != "" && IsBlank(s[|s| - 1]) then TrimRight(s[..|s| - 1]) else s
  }

  /** `ConfigFileParser::trim`. */
  function Trim(s: string): string {
    TrimRight(TrimLeft(s))
  }

  predicate Trimmed(s: string) {
    s != "" ==> !IsBlank(s[0]) && !IsBlank(s[|s| - 1])
  }

  lemma {:induction false} TrimLeftSplits(s: string) returns (a: string)
    ensures s == a + TrimLeft(s) && Blank(a)
    ensures TrimLeft(s) != "" ==> !IsBlank(TrimLeft(s)[0])
  {
    a := "";
    if s != "" && IsBlank(s[0]) {
      var rest := TrimLeftSplits(s[1..]);
      a := [s[0]] + rest;
      assert s == [s[0]] + s[1..];
    }
  }

  lemma {:induction false} TrimRightSplits(s: string) returns (b: string)
    ensures s == TrimRight(s) + b && Blank(b)
    ensures TrimRight(s) != "" ==> !IsBlank(TrimRight(s)[|TrimRight(s)| - 1]) && TrimRight(s)[0] == s[0]
  {
    b := "";
    if s != "" && IsBlank(s[|s| - 1]) {
      var rest := TrimRightSplits(s[..|s| - 1]);
      b := rest + [s[|s| - 1]];
      assert s == s[..|s| - 1] + [s[|s| - 1]];
    }
  }

  /** Trimming takes blanks off both ends and leaves none there. */
  lemma TrimSplits(s: string) returns (a: string, b: string)
    ensures s == a + Trim(s) + b && Blank(a) && Blank(b) && Trimmed(Trim(s))
  {
    a := TrimLeftSplits(s);
    b := TrimRightSplits(TrimLeft(s));
  }

  lemma {:induction false} TrimLeftDrops(a: string, s: string)
    requires Blank(a)
    ensures TrimLeft(a + s) == TrimLeft(s)
  {
    if a == "" {
      assert a + s == s;
    } else {
      assert (a + s)[1..] == a[1..] + s;
      TrimLeftDrops(a[1..], s);
    }
  }

  lemma {:induction false} TrimRightDrops(s: string, b: string)
    requires Blank(b)
    ensures TrimRight(s + b) == TrimRight(s)
  {
    if b == "" {
      assert s + b == s;
    } else {
      assert (s + b)[..|s + b| - 1] == s + b[..|b| - 1];
      TrimRightDrops(s, b[..|b| - 1]);
    }
  }

  /** The trimmed string is the only one that gives `s` back with blanks around it. */
  lemma TrimIs(a: string, t: string, b: string)
    requires Blank(a) && Blank(b) && Trimmed(t)
    ensures Trim(a + t + b) == t
  {
    assert a + t + b == a + (t + b);
    TrimLeftDrops(a, t + b);
    if t == "" {
      assert t + b == b + "";
      TrimLeftDrops(b, "");
    } else {
      assert TrimLeft(t + b) == t + b;
      TrimRightDrops(t, b);
    }
  }

  lemma TrimEmptyIffBlank(s: string)
    ensures Trim(s) == "" <==> Blank(s)
  {
    var a, b := TrimSplits(s);
    if Blank(s) {
      TrimIs(s, "", "");
      assert s + "" + "" == s;
    } else {
      assert Trim(s) == "" ==> s == a + b;
    }
  }

  /** A solid pattern in a string with a blank in it stands on one side of the blank. */
  lemma OccursAround(a: string, w: char, b: string, pat: string)
    requires Solid(pat) && IsBlank(w) && Occurs(a + [w] + b, pat)
    ensures Occurs(a, pat) || Occurs(b, pat)
  {
    var s := a + [w] + b;
    var i := Find(s, pat).value;
    StandsAt(s, i, pat);
    assert s[|a|] == w;
    if i + |pat| <= |a| {
      assert a[i..i + |pat|] == s[i..i + |pat|];
      FindIsFirst(a, pat, i);
    } else if i > |a| {
      assert b[i - |a| - 1..i - |a| - 1 + |pat|] == s[i..i + |pat|];
      FindIsFirst(b, pat, i - |a| - 1);
    }
  }

  lemma BlankHasNone(s: string, pat: string)
    requires Blank(s) && Solid(pat)
    ensures !Occurs(s, pat)
  {
    if Occurs(s, pat) {
      StandsAt(s, Find(s, pat).value, pat);
    }
  }

  // ----- Streams -----

  /** What is left of the input, and the end-of-file and failure bits. */
  datatype In = In(rest: string, eof: bool, fail: bool)

  function Measure(s: In): nat {
    if s.fail then 0 else if s.eof then 1 else 2 + |s.rest|
  }

  /** `std::getline`: a stream that is not good fails and leaves the string as it was. */
  function GetLine(s: In, line: string): (r: (In, string))
    ensures !s.fail ==> Measure(r.0) < Measure(s)
    ensures s.fail ==> r == (s, line)
  {
    if s.fail || s.eof then (s.(fail := true), line)
    else
      match Find(s.rest, "\n")
      case None => (In("", true, s.rest == ""), s.rest)
      case Some(i) => (In(s.rest[i + 1..], false, false), s.rest[..i])
  }

  predicate IsLine(s: string) {
    '\n' !in s
  }

  lemma ReadLine(l: string, rest: string, was: string)
    requires IsLine(l)
    ensures GetLine(In(l + "\n" + rest, false, false), was) == (In(rest, false, false), l)
  {
    var s := l + "\n" + rest;
    assert s[|l|..|l| + 1] == "\n";
    FindIsFirst(s, "\n", |l|);
    var i := Find(s, "\n").value;
    StandsAt(s, i, "\n");
    assert i == |l| by {
      assert forall k :: 0 <= k < |l| ==> s[k] == l[k];
    }
    assert s[..i] == l && s[i + 1..] == rest;
  }

  lemma ReadLastLine(l: string, was: string)
    requires IsLine(l)
    ensures GetLine(In(l, false, false), was) == (In("", true, l == ""), l)
  {
    if Find(l, "\n").Some? {
      StandsAt(l, Find(l, "\n").value, "\n");
    }
  }
}
