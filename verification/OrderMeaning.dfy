/** What order `woCompare` is: kind by kind, then name, then value. */
module OrderMeaning {
  import opened Wrappers
  import opened Bytes
  import opened BsonDocument
  import opened BsonRoundTrip
  import opened BsonOrder
  import opened Doubles
  import opened ObjectId

  /** The comparison succeeds; it is negative exactly if `below` and zero exactly if `equal`. */
  predicate Sign(r: Result<int>, below: bool, equal: bool) {
    r.Success? && (r.value < 0 <==> below) && (r.value == 0 <==> equal)
  }

  /** Dictionary order: `s` ends, or has the smaller byte, where they first differ. */
  ghost predicate Before(s: seq<byte>, t: seq<byte>) {
    exists k :: DifferAt(s, t, k)
  }

  ghost predicate DifferAt(s: seq<byte>, t: seq<byte>, k: int) {
    0 <= k <= |s| && k < |t| && s[..k] == t[..k] && (k == |s| || s[k] < t[k])
  }

  lemma {:induction false} LexIsDictionary(s: seq<byte>, t: seq<byte>)
    ensures Lex(s, t) < 0 <==> Before(s, t)
    ensures Lex(s, t) == 0 <==> s == t
  {
    LexOpposite(s, t);
    if s != [] && t != [] && s[0] == t[0] {
      LexIsDictionary(s[1..], t[1..]);
      if k :| DifferAt(s[1..], t[1..], k) {
        assert s[..k + 1] == [s[0]] + s[1..][..k] && t[..k + 1] == [t[0]] + t[1..][..k];
        assert DifferAt(s, t, k + 1);
      }
      if k :| DifferAt(s, t, k) {
        assert k > 0;
        assert s[1..][..k - 1] == s[..k][1..] && t[1..][..k - 1] == t[..k][1..];
        assert DifferAt(s[1..], t[1..], k - 1);
      }
    } else {
      if t != [] && (s == [] || s[0] < t[0]) {
        assert DifferAt(s, t, 0);
      }
    }
  }

  /** A terminator behind both makes no difference, even if they contain NULs. */
  lemma {:induction false} TerminatorIsNeutral(s: seq<byte>, t: seq<byte>)
    ensures Lex(s + [0], t + [0]) < 0 <==> Lex(s, t) < 0
    ensures Lex(s + [0], t + [0]) == 0 <==> Lex(s, t) == 0
  {
    if s != [] && t != [] {
      assert (s + [0])[1..] == s[1..] + [0] && (t + [0])[1..] == t[1..] + [0];
      TerminatorIsNeutral(s[1..], t[1..]);
    } else if t != [] {
      assert (t + [0])[1..] == t[1..] + [0] && (s + [0])[1..] == [];
    } else if s != [] {
      assert (s + [0])[1..] == s[1..] + [0] && (t + [0])[1..] == [];
    }
  }

  lemma DictionaryOfTerminated(s: seq<byte>, t: seq<byte>)
    ensures StringCmp(s + [0], t + [0]) < 0 <==> Before(s, t)
    ensures StringCmp(s + [0], t + [0]) == 0 <==> s == t
  {
    hide StringCmp;
    hide Lex;
    hide Before;
    StringCmpIsLex(s + [0], t + [0]);
    TerminatorIsNeutral(s, t);
    LexIsDictionary(s, t);
  }

  // ----- Values of one kind -----

  /** Times by their number, `false` before `true`. A timestamp takes a date for an unsigned number. */
  lemma OrderOfTimes(a: int64, b: int64, t: uint64, u: uint64, x: bool, y: bool)
    ensures Sign(CompareValues(Date(a), Date(b)), a < b, a == b)
    ensures Sign(CompareValues(Timestamp(t), Timestamp(u)), t < u, t == u)
    ensures a >= 0 ==> Sign(CompareValues(Timestamp(t), Date(a)), t < a, t == a)
    ensures a < 0 ==> Sign(CompareValues(Timestamp(t), Date(a)), t < a + 0x1_0000_0000_0000_0000, t == a + 0x1_0000_0000_0000_0000)
    ensures Sign(CompareValues(Bool(x), Bool(y)), !x && y, x == y)
  {
  }

  /** Numbers by their value, longs among each other exactly, otherwise as doubles; infinities at both ends, NaN below all. */
  lemma OrderOfNumbers(l: Value, r: Value)
    requires IsNumber(l) && IsNumber(r)
    ensures Canonical(l) == Canonical(r)
    ensures var c := CompareValues(l, r);
      && (l.Int64? && r.Int64? ==> Sign(c, l.l < r.l, l.l == r.l))
      && (l.Int32? && r.Int32? ==> Sign(c, l.n < r.n, l.n == r.n))
    ensures var (c, a, b) := (CompareValues(l, r), NumberOf(l), NumberOf(r));
      !(l.Int64? && r.Int64?) ==>
        && (a.Finite? && b.Finite? ==> Sign(c, a.r < b.r, a.r == b.r))
        && (a.NaN? ==> Sign(c, !b.NaN?, b.NaN?))
        && (b.NaN? && !a.NaN? ==> Sign(c, false, false))
        && (a.NegInf? && !b.NaN? ==> Sign(c, !b.NegInf?, b.NegInf?))
        && (b.PosInf? && !a.NaN? ==> Sign(c, !a.PosInf?, a.PosInf?))
  {
    hide DoubleOf;
    hide OfLong;
    hide CompareValues;
    hide CompareDoubles;
    hide CompareNumbers;
    hide NumberOf;
    NumberCompare(l, r);
    IntegersCompared(l, r);
    if !(l.Int64? && r.Int64?) {
      ComparedAsDoubles(l, r);
      DoublesCompared(NumberOf(l), NumberOf(r));
    }
  }

  lemma IntegersCompared(l: Value, r: Value)
    requires IsNumber(l) && IsNumber(r)
    ensures l.Int64? && r.Int64? ==> Sign(Success(CompareNumbers(l, r)), l.l < r.l, l.l == r.l)
    ensures l.Int32? && r.Int32? ==> Sign(Success(CompareNumbers(l, r)), l.n < r.n, l.n == r.n)
  {
    hide NumberOf;
    hide CompareDoubles;
  }

  lemma ComparedAsDoubles(l: Value, r: Value)
    requires IsNumber(l) && IsNumber(r) && !(l.Int64? && r.Int64?)
    ensures CompareNumbers(l, r) == CompareDoubles(NumberOf(l), NumberOf(r))
  {
    hide DoubleOf;
    hide OfLong;
  }

  lemma DoublesCompared(a: Dbl, b: Dbl)
    ensures var c := Success(CompareDoubles(a, b));
      && (a.Finite? && b.Finite? ==> Sign(c, a.r < b.r, a.r == b.r))
      && (a.NaN? ==> Sign(c, !b.NaN?, b.NaN?))
      && (b.NaN? && !a.NaN? ==> Sign(c, false, false))
      && (a.NegInf? && !b.NaN? ==> Sign(c, !b.NegInf?, b.NegInf?))
      && (b.PosInf? && !a.NaN? ==> Sign(c, !a.PosInf?, a.PosInf?))
  {
  }

  function Text(v: Value): seq<byte>
    requires IsText(v)
  {
    match v
    case Str(s) => s
    case Symbol(s) => s
    case Code(s) => s
  }

  /** Strings, symbols and code by dictionary, byte by byte and NULs included; strings and symbols are one kind. */
  lemma OrderOfTexts(l: Value, r: Value)
    requires IsText(l) && IsText(r) && (l.Code? <==> r.Code?)
    ensures Sign(CompareValues(l, r), Before(Text(l), Text(r)), Text(l) == Text(r))
  {
    DictionaryOfTerminated(Text(l), Text(r));
    hide StringCmp;
    hide Before;
    hide CompareDocs;
    hide CompareNumbers;
  }

  /** Object ids as numbers written most significant byte first. */
  lemma OrderOfIds(a: Bytes12, b: Bytes12)
    ensures Sign(CompareValues(Oid(a), Oid(b)), BigEndian(a) < BigEndian(b), a == b)
    ensures BigEndian(a) < BigEndian(b) <==> Before(a, b)
  {
    LexIsNumeric(a, b);
    LexIsDictionary(a, b);
    hide Lex;
    hide Before;
    hide BigEndian;
  }

  /** Binary data by length, then subtype, then content. */
  lemma OrderOfBinary(p: byte, a: seq<byte>, q: byte, b: seq<byte>)
    ensures Sign(CompareValues(BinData(p, a), BinData(q, b)),
                 |a| < |b| || (|a| == |b| && (p < q || (p == q && Before(a, b)))), p == q && a == b)
  {
    LexIsDictionary(a, b);
    var s, t := [p] + a, [q] + b;
    assert s[1..] == a && t[1..] == b;
    assert s[0] == p && t[0] == q && (s == t <==> p == q && a == b);
    LexOpposite(s, t);
    hide Before;
  }

  /** Regular expressions by pattern, then options; a DBRef by the length of its name, then name, then id. */
  lemma OrderOfPatterns(p: seq<byte>, o: seq<byte>, q: seq<byte>, u: seq<byte>)
    requires NulFree(p) && NulFree(o) && NulFree(q) && NulFree(u)
    ensures Sign(CompareValues(Regex(p, o), Regex(q, u)), Before(p, q) || (p == q && Before(o, u)), p == q && o == u)
  {
    hide CompareValues;
    hide Lex;
    hide Before;
    hide CStr;
    hide AfterCStr;
    hide EncodeValue;
    hide NulFree;
    PatternsCompared(Regex(p, o), Regex(q, u));
    PatternStrings(p, o);
    PatternStrings(q, u);
    LexIsDictionary(p, q);
    LexIsDictionary(o, u);
  }

  lemma PatternsCompared(l: Value, r: Value)
    requires l.Regex? && r.Regex?
    ensures CompareValues(l, r) == Success(TwoStrings(EncodeValue(l), EncodeValue(r)))
  {
    hide TwoStrings;
    hide EncodeValue;
    hide CompareDocs;
    hide CompareNumbers;
  }

  lemma PatternStrings(p: seq<byte>, o: seq<byte>)
    requires NulFree(p) && NulFree(o)
    ensures var s := EncodeValue(Regex(p, o)); CStr(s) == p && CStr(AfterCStr(s)) == o
  {
    RegexBytes(p, o);
    RegexLengths(p, o, []);
    RegexLayout(p, o, []);
    hide EncodeValue;
    hide StrLen;
    hide NulFree;
    assert p + [0] + o + [0] + [] == p + [0] + o + [0];
  }

  lemma OrderOfReferences(ns: seq<byte>, id: Bytes12, ms: seq<byte>, jd: Bytes12)
    requires |ns| < INT_MAX && |ms| < INT_MAX
    ensures Sign(CompareValues(DBRef(ns, id), DBRef(ms, jd)),
                 |ns| < |ms| || (|ns| == |ms| && (Before(ns, ms) || (ns == ms && Before(id, jd)))), ns == ms && id == jd)
  {
    ReferenceBytes(ns, id, ms, jd);
    LexIsDictionary(ns, ms);
    LexIsDictionary(id, jd);
    hide Lex;
    hide Before;
    hide EncodeValue;
  }

  /** A common beginning does not count; nor do the ends when the beginnings differ and are equally long. */
  lemma {:induction false} LexAppend(s: seq<byte>, t: seq<byte>, x: seq<byte>, y: seq<byte>)
    requires |s| == |t|
    ensures Lex(s + x, t + y) == if Lex(s, t) != 0 then Lex(s, t) else Lex(x, y)
  {
    if s != [] {
      assert (s + x)[1..] == s[1..] + x && (t + y)[1..] == t[1..] + y;
      LexAppend(s[1..], t[1..], x, y);
    } else {
      assert s + x == x && t + y == y;
    }
  }

  lemma ReferenceBytes(ns: seq<byte>, id: Bytes12, ms: seq<byte>, jd: Bytes12)
    ensures var (s, t) := (EncodeValue(DBRef(ns, id)), EncodeValue(DBRef(ms, jd)));
      && |s| - |t| == |ns| - |ms|
      && (|ns| == |ms| ==> Lex(s, t) == if Lex(ns, ms) != 0 then Lex(ns, ms) else Lex(id, jd))
  {
    ReferenceLayout(ns, id);
    ReferenceLayout(ms, jd);
    hide EncodeValue;
    hide Lex;
    hide Int32Bytes;
    if |ns| == |ms| {
      var head, zero: seq<byte> := Int32Bytes(|ns| + 1), [0];
      LexAppend(head, head, ns + (zero + id), ms + (zero + jd));
      LexAppend(ns, ms, zero + id, zero + jd);
      LexAppend(zero, zero, id, jd);
      LexOpposite(head, head);
      LexOpposite(zero, zero);
    }
  }

  lemma ReferenceLayout(ns: seq<byte>, id: Bytes12)
    ensures EncodeValue(DBRef(ns, id)) == Int32Bytes(|ns| + 1) + (ns + ([0] + id))
  {
    hide Int32Bytes;
  }

  /** Code with a scope by the code up to its first NUL, then by the bytes of the scope up to theirs. */
  lemma OrderOfScopedCode(a: seq<byte>, d: Doc, b: seq<byte>, e: Doc)
    requires NulFree(a) && NulFree(b)
    ensures var (s, t) := (CStr(EncodeDoc(d)), CStr(EncodeDoc(e)));
      Sign(CompareValues(CodeWScope(a, d), CodeWScope(b, e)), Before(a, b) || (a == b && Before(s, t)), a == b && s == t)
  {
    hide Lex;
    hide Before;
    hide CStr;
    hide AfterCStr;
    hide EncodeDoc;
    hide ScopeStrings;
    hide NulFree;
    hide CompareValues;
    ScopesCompared(CodeWScope(a, d), CodeWScope(b, e));
    ScopedStrings(a, d);
    ScopedStrings(b, e);
    LexIsDictionary(a, b);
    LexIsDictionary(CStr(EncodeDoc(d)), CStr(EncodeDoc(e)));
  }

  lemma ScopesCompared(l: Value, r: Value)
    requires l.CodeWScope? && r.CodeWScope?
    ensures CompareValues(l, r) == Success(TwoStrings(ScopeStrings(l), ScopeStrings(r)))
  {
    hide TwoStrings;
    hide ScopeStrings;
    hide CompareDocs;
    hide CompareNumbers;
  }

  lemma ScopedStrings(a: seq<byte>, d: Doc)
    requires NulFree(a)
    ensures var s := ScopeStrings(CodeWScope(a, d)); CStr(s) == a && AfterCStr(s) == EncodeDoc(d)
  {
    StrLenOfCString(a, EncodeDoc(d));
    hide EncodeDoc;
    hide StrLen;
    hide NulFree;
    var s := a + [0] + EncodeDoc(d);
    assert s[..|a|] == a && s[|a| + 1..] == EncodeDoc(d);
  }

  // ----- Kinds, names, documents -----

  /** The rank of a kind; the numbers are one kind, so are strings with symbols, and dates with timestamps. */
  function Rank(v: Value): nat {
    if v.MinKey? then 0
    else if v.Undefined? then 1
    else if v.Null? then 2
    else if v.Double? || v.Int32? || v.Int64? then 3
    else if v.Str? || v.Symbol? then 4
    else if v.Object? then 5
    else if v.Array? then 6
    else if v.BinData? then 7
    else if v.Oid? then 8
    else if v.Bool? then 9
    else if v.Date? || v.Timestamp? then 10
    else if v.Regex? then 11
    else if v.DBRef? then 12
    else if v.Code? then 13
    else if v.CodeWScope? then 14
    else 15
  }

  /** Elements of different kinds compare as their kinds do, whatever their names; of one kind, by name and then by value. */
  lemma KindThenNameThenValue(ln: seq<byte>, l: Value, rn: seq<byte>, r: Value)
    requires NulFree(ln) && NulFree(rn)
    ensures var c := CompareElements(ln, l, rn, r, true);
      && (Rank(l) != Rank(r) ==> Sign(c, Rank(l) < Rank(r), false))
      && (Rank(l) == Rank(r) && ln != rn ==> Sign(c, Before(ln, rn), false))
      && (Rank(l) == Rank(r) && ln == rn ==> c == CompareValues(l, r))
  {
    LexIsDictionary(ln, rn);
    RankIsCanonical(l, r);
    assert ln[..|ln|] == ln && rn[..|rn|] == rn;
    assert CStr(ln) == ln && CStr(rn) == rn;
    hide Lex;
    hide Before;
    hide CompareValues;
    hide Canonical;
    hide CStr;
    hide Rank;
  }

  lemma RankIsCanonical(l: Value, r: Value)
    ensures Rank(l) < Rank(r) <==> Canonical(l) < Canonical(r)
    ensures Rank(l) == Rank(r) <==> Canonical(l) == Canonical(r)
  {
  }

  /** The least kinds hold one value each; embedded documents and arrays compare as documents. */
  lemma OrderOfTheRest(d: Doc, e: Doc)
    ensures forall v :: v in {MinKey, MaxKey, Null, Undefined} ==> CompareValues(v, v) == Success(0)
    ensures CompareValues(Object(d), Object(e)) == CompareDocs(d, e) && CompareValues(Array(d), Array(e)) == CompareDocs(d, e)
  {
    hide CompareDocs;
  }

  /** Element by element as long as they are equal. */
  ghost predicate SameElements(d: Doc, e: Doc)
  {
    match (d, e)
    case (Nil, Nil) => true
    case (Cons(n, v, d'), Cons(m, w, e')) => CompareElements(n, v, m, w, true) == Success(0) && SameElements(d', e')
    case _ => false
  }

  /**
   * Equal elements at the beginning do not count. Behind them the document that ends first is less, and otherwise the first
   * pair of elements that differ decides.
   */
  lemma {:induction false} FirstDifferenceDecides(p: Doc, d: Doc, q: Doc, e: Doc)
    requires SameElements(p, q)
    ensures CompareDocs(Append(p, d), Append(q, e)) == CompareDocs(d, e)
    ensures d.Nil? ==> Sign(CompareDocs(d, e), e.Cons?, e.Nil?)
    ensures e.Nil? ==> Sign(CompareDocs(d, e), false, d.Nil?)
    ensures d.Cons? && e.Cons? ==>
      var c := CompareElements(d.name, d.value, e.name, e.value, true); c != Success(0) ==> CompareDocs(d, e) == c
    decreases p
  {
    hide CompareElements;
    if p.Cons? {
      FirstDifferenceDecides(p.rest, d, q.rest, e);
    }
  }
}
