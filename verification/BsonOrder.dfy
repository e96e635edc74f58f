/** The well-ordered comparison of elements and documents. */
module BsonOrder {
  import opened Wrappers
  import opened Bytes
  import opened BsonDocument
  import opened Doubles

  const WRONG_TYPE := 13111

  // ----- memcmp and strcmp -----

  function Lex(s: seq<byte>, t: seq<byte>): int {
    if s == [] then (if t == [] then 0 else -1)
    else if t == [] then 1
    else if s[0] < t[0] then -1
    else if s[0] > t[0] then 1
    else Lex(s[1..], t[1..])
  }

  /** The bytes up to the first NUL. */
  function CStr(s: seq<byte>): seq<byte> {
    match StrLen(s)
    case Some(n) => s[..n]
    case None => s
  }

  function AfterCStr(s: seq<byte>): seq<byte> {
    match StrLen(s)
    case Some(n) => s[n + 1..]
    case None => []
  }

  /** `strcmp` on the first C string, then on the one behind it. */
  function TwoStrings(s: seq<byte>, t: seq<byte>): int {
    var c := Lex(CStr(s), CStr(t));
    if c != 0 then c else Lex(CStr(AfterCStr(s)), CStr(AfterCStr(t)))
  }

  /** `memcmp` on the common length; then the longer string is the greater one. */
  function StringCmp(s: seq<byte>, t: seq<byte>): int {
    var common := if |s| < |t| then |s| else |t|;
    var res := Lex(s[..common], t[..common]);
    if res != 0 then res else |s| - |t|
  }

  /** Size first, then content. */
  function SizeThenContent(s: seq<byte>, t: seq<byte>): int {
    if |s| != |t| then |s| - |t| else Lex(s, t)
  }

  // ----- Numbers -----

  predicate IsNumber(v: Value) {
    v.Double? || v.Int32? || v.Int64?
  }

  function NumberOf(v: Value): Dbl
    requires IsNumber(v)
  {
    match v
    case Double(bits) => DoubleOf(bits)
    case Int32(n) => Finite(n as real)
    case Int64(n) => OfLong(n)
  }

  function CompareInts(a: int, b: int): int {
    if a < b then -1 else if a == b then 0 else 1
  }

  function CompareDoubles(left: Dbl, right: Dbl): int {
    if Less(left, right) then -1
    else if left == right && left != NaN then 0
    else if left == NaN then (if right == NaN then 0 else -1)
    else 1
  }

  function CompareNumbers(l: Value, r: Value): int
    requires IsNumber(l) && IsNumber(r)
  {
    if l.Int64? && r.Int64? then CompareInts(l.l, r.l)
    else if l.Int32? && r.Int32? then CompareInts(l.n, r.n)
    else CompareDoubles(NumberOf(l), NumberOf(r))
  }

  // ----- Elements and documents -----

  function Canonical(v: Value): int {
    match v
    case MinKey => -1
    case MaxKey => 127
    case Undefined => 0
    case Null => 5
    case Double(_) => 10
    case Int32(_) => 10
    case Int64(_) => 10
    case Str(_) => 15
    case Symbol(_) => 15
    case Object(_) => 20
    case Array(_) => 25
    case BinData(_, _) => 30
    case Oid(_) => 35
    case Bool(_) => 40
    case Date(_) => 45
    case Timestamp(_) => 45
    case Regex(_, _) => 50
    case DBRef(_, _) => 55
    case Code(_) => 60
    case CodeWScope(_, _) => 65
  }

  function UnsignedMillis(v: Value): int
    requires v.Date? || v.Timestamp?
  {
    if v.Timestamp? then v.t else v.ms % 0x1_0000_0000_0000_0000
  }

  /** The type switch of `compareElementValues`, reached when the canonical types agree. */
  function CompareValues(l: Value, r: Value): Result<int>
    requires Canonical(l) == Canonical(r)
    decreases l, 1
  {
    match l
    case Undefined => Success(0)
    case Null => Success(0)
    case MaxKey => Success(0)
    case MinKey => Success(0)
    case Bool(b) => Success((if b then 1 else 0) - (if r.b then 1 else 0))
    case Timestamp(t) => Success(CompareInts(t, UnsignedMillis(r)))
    case Date(ms) => if r.Date? then Success(CompareInts(ms, r.ms)) else Failure(WRONG_TYPE)
    case Double(_) => Success(CompareNumbers(l, r))
    case Int32(_) => Success(CompareNumbers(l, r))
    case Int64(_) => Success(CompareNumbers(l, r))
    case Oid(id) => Success(Lex(id, r.id))
    case Str(_) => Success(StringCmp(Terminated(l), Terminated(r)))
    case Symbol(_) => Success(StringCmp(Terminated(l), Terminated(r)))
    case Code(_) => Success(StringCmp(Terminated(l), Terminated(r)))
    case Object(d) => CompareDocs(d, r.fields)
    case Array(d) => CompareDocs(d, r.items)
    case DBRef(_, _) => Success(SizeThenContent(EncodeValue(l), EncodeValue(r)))
    case BinData(subtype, data) => Success(SizeThenContent([subtype] + data, [r.subtype] + r.data))
    case Regex(_, _) => Success(TwoStrings(EncodeValue(l), EncodeValue(r)))
    case CodeWScope(_, _) => Success(TwoStrings(ScopeStrings(l), ScopeStrings(r)))
  }

  /** String, symbol and code values are compared with their terminators. */
  function Terminated(v: Value): seq<byte>
    requires v.Str? || v.Symbol? || v.Code?
  {
    (match v
     case Str(s) => s
     case Symbol(s) => s
     case Code(s) => s) + [0]
  }

  /** The memory from `codeWScopeCode()` on. */
  function ScopeStrings(v: Value): seq<byte>
    requires v.CodeWScope?
  {
    v.code + [0] + EncodeDoc(v.scope)
  }

  /** `BSONElement::woCompare`. */
  function CompareElements(ln: seq<byte>, l: Value, rn: seq<byte>, r: Value, considerFieldName: bool): Result<int>
    decreases l, 2
  {
    var x := Canonical(l) - Canonical(r);
    if x != 0 then Success(x) else
    var y := Lex(CStr(ln), CStr(rn));
    if considerFieldName && y != 0 then Success(y)
    else CompareValues(l, r)
  }

  /** `BSONObj::woCompare` with no ordering pattern. */
  function CompareDocs(d: Doc, e: Doc): Result<int>
    decreases d, 0
  {
    if d.Nil? then Success(if e.Nil? then 0 else -1)
    else if e.Nil? then Success(1)
    else
      var x :- CompareElements(d.name, d.value, e.name, e.value, true);
      if x != 0 then Success(x) else CompareDocs(d.rest, e.rest)
  }

  // ----- What a comparison has to satisfy -----

  /** `f(a, b)` and `f(b, a)` have opposite signs. */
  predicate Opposite(ab: int, ba: int) {
    (ab < 0 <==> ba > 0) && (ab == 0 <==> ba == 0)
  }

  /** The signs of `f(a, b)`, `f(b, c)` and `f(a, c)` fit one weak order. */
  predicate Chain(ab: int, bc: int, ac: int) {
    && (ab <= 0 && bc <= 0 ==> ac <= 0 && (ab < 0 || bc < 0 ==> ac < 0))
    && (ab >= 0 && bc >= 0 ==> ac >= 0 && (ab > 0 || bc > 0 ==> ac > 0))
  }

  lemma {:induction false} LexOpposite(s: seq<byte>, t: seq<byte>)
    ensures Opposite(Lex(s, t), Lex(t, s))
    ensures Lex(s, t) == 0 <==> s == t
  {
    if s != [] && t != [] {
      LexOpposite(s[1..], t[1..]);
      assert s == [s[0]] + s[1..] && t == [t[0]] + t[1..];
    }
  }

  lemma {:induction false} LexChain(s: seq<byte>, t: seq<byte>, u: seq<byte>)
    ensures Chain(Lex(s, t), Lex(t, u), Lex(s, u))
  {
    if s != [] && t != [] && u != [] {
      LexChain(s[1..], t[1..], u[1..]);
    }
  }

  /** Comparing the common part and then the sizes is the lexicographic order. */
  lemma {:induction false} StringCmpIsLex(s: seq<byte>, t: seq<byte>)
    ensures StringCmp(s, t) < 0 <==> Lex(s, t) < 0
    ensures StringCmp(s, t) == 0 <==> Lex(s, t) == 0
  {
    if s != [] && t != [] {
      StringCmpIsLex(s[1..], t[1..]);
      var common := if |s| < |t| then |s| else |t|;
      assert s[..common][1..] == s[1..][..common - 1];
      assert t[..common][1..] == t[1..][..common - 1];
    }
  }

  lemma TwoStringsOrder(s: seq<byte>, t: seq<byte>, u: seq<byte>)
    ensures Opposite(TwoStrings(s, t), TwoStrings(t, s))
    ensures Chain(TwoStrings(s, t), TwoStrings(t, u), TwoStrings(s, u))
  {
    LexOpposite(CStr(s), CStr(t));
    LexChain(CStr(s), CStr(t), CStr(u));
    LexOpposite(CStr(AfterCStr(s)), CStr(AfterCStr(t)));
    LexChain(CStr(AfterCStr(s)), CStr(AfterCStr(t)), CStr(AfterCStr(u)));
  }

  lemma StringCmpOrder(s: seq<byte>, t: seq<byte>, u: seq<byte>)
    ensures Opposite(StringCmp(s, t), StringCmp(t, s))
    ensures Chain(StringCmp(s, t), StringCmp(t, u), StringCmp(s, u))
  {
    StringCmpIsLex(s, t);
    StringCmpIsLex(t, s);
    StringCmpIsLex(t, u);
    StringCmpIsLex(s, u);
    LexOpposite(s, t);
    LexChain(s, t, u);
  }

  lemma SizeThenContentOrder(s: seq<byte>, t: seq<byte>, u: seq<byte>)
    ensures Opposite(SizeThenContent(s, t), SizeThenContent(t, s))
    ensures Chain(SizeThenContent(s, t), SizeThenContent(t, u), SizeThenContent(s, u))
  {
    LexOpposite(s, t);
    LexChain(s, t, u);
  }

  // ----- Numbers -----

  /** No two distinct long values of `longs` round to the same double. */
  ghost predicate Apart(longs: set<int64>) {
    forall x, y :: x in longs && y in longs && Round(x) == Round(y) ==> x == y
  }

  /** Longs of at most 53 bits are apart, whichever they are. */
  lemma ExactLongsAreApart(longs: set<int64>)
    requires forall n :: n in longs ==> -TWO_53 <= n <= TWO_53
    ensures Apart(longs)
  {
    forall x, y | x in longs && y in longs && Round(x) == Round(y)
      ensures x == y
    {
      ExactWithin53Bits(x);
      ExactWithin53Bits(y);
    }
  }

  lemma CompareDoublesOrder(a: Dbl, b: Dbl, c: Dbl)
    ensures Opposite(CompareDoubles(a, b), CompareDoubles(b, a))
    ensures Chain(CompareDoubles(a, b), CompareDoubles(b, c), CompareDoubles(a, c))
  {
  }

  /** On apart longs the comparison agrees with comparing the rounded values. */
  lemma NumbersAsDoubles(l: Value, r: Value, longs: set<int64>)
    requires IsNumber(l) && IsNumber(r) && Apart(longs)
    requires (l.Int64? ==> l.l in longs) && (r.Int64? ==> r.l in longs)
    ensures CompareNumbers(l, r) == CompareDoubles(NumberOf(l), NumberOf(r))
  {
    if l.Int64? && r.Int64? {
      if l.l <= r.l {
        RoundMonotone(l.l, r.l);
      } else {
        RoundMonotone(r.l, l.l);
      }
    }
  }

  // ----- The theorem -----

  /** Which longs may occur in a document, and whether dates and timestamps may. */
  datatype Kinds = Kinds(longs: set<int64>, dates: bool, stamps: bool) {
    /** No two longs collapse, and dates are not mixed with timestamps. */
    ghost predicate Orderly() {
      Apart(longs) && !(dates && stamps)
    }
  }

  predicate Within(d: Doc, kinds: Kinds)
    decreases d, 0
  {
    d.Nil? || (ValueWithin(d.value, kinds) && Within(d.rest, kinds))
  }

  predicate ValueWithin(v: Value, kinds: Kinds)
    decreases v, 1
  {
    match v
    case Int64(n) => n in kinds.longs
    case Date(_) => kinds.dates
    case Timestamp(_) => kinds.stamps
    case Object(d) => Within(d, kinds)
    case Array(d) => Within(d, kinds)
    case _ => true
  }

  /** Both comparisons succeed, with opposite signs. */
  predicate Antisymmetric(ab: Result<int>, ba: Result<int>) {
    ab.Success? && ba.Success? && Opposite(ab.value, ba.value)
  }

  predicate Transitive(ab: Result<int>, bc: Result<int>, ac: Result<int>) {
    ab.Success? && bc.Success? && ac.Success? && Chain(ab.value, bc.value, ac.value)
  }

  lemma NumbersOrdered(a: Value, b: Value, c: Value, longs: set<int64>)
    requires Apart(longs) && IsNumber(a) && IsNumber(b) && IsNumber(c)
    requires (a.Int64? ==> a.l in longs) && (b.Int64? ==> b.l in longs) && (c.Int64? ==> c.l in longs)
    ensures Opposite(CompareNumbers(a, b), CompareNumbers(b, a))
    ensures Chain(CompareNumbers(a, b), CompareNumbers(b, c), CompareNumbers(a, c))
  {
    hide CompareNumbers;
    hide NumberOf;
    NumbersAsDoubles(a, b, longs);
    NumbersAsDoubles(b, a, longs);
    NumbersAsDoubles(b, c, longs);
    NumbersAsDoubles(a, c, longs);
    CompareDoublesOrder(NumberOf(a), NumberOf(b), NumberOf(c));
  }

  predicate IsText(v: Value) {
    v.Str? || v.Symbol? || v.Code?
  }

  predicate IsBytes(v: Value) {
    v.Oid? || v.DBRef? || v.BinData? || v.Regex? || v.CodeWScope?
  }

  lemma TextsOrdered(a: Value, b: Value, c: Value)
    requires Canonical(a) == Canonical(b) == Canonical(c) && IsText(a)
    ensures Antisymmetric(CompareValues(a, b), CompareValues(b, a))
    ensures Transitive(CompareValues(a, b), CompareValues(b, c), CompareValues(a, c))
  {
    hide EncodeValue;
    hide CompareDocs;
    hide CompareNumbers;
    hide StringCmp;
    hide TwoStrings;
    hide SizeThenContent;
    StringCmpOrder(Terminated(a), Terminated(b), Terminated(c));
  }

  lemma BytesOrdered(a: Value, b: Value, c: Value)
    requires Canonical(a) == Canonical(b) == Canonical(c) && IsBytes(a)
    ensures Antisymmetric(CompareValues(a, b), CompareValues(b, a))
    ensures Transitive(CompareValues(a, b), CompareValues(b, c), CompareValues(a, c))
  {
    hide EncodeValue;
    hide EncodeDoc;
    hide CompareDocs;
    hide CompareNumbers;
    hide Lex;
    hide StringCmp;
    hide SizeThenContent;
    hide TwoStrings;
    hide ScopeStrings;
    if a.Oid? {
      LexOpposite(a.id, b.id);
      LexChain(a.id, b.id, c.id);
    } else if a.DBRef? {
      SizeThenContentOrder(EncodeValue(a), EncodeValue(b), EncodeValue(c));
    } else if a.BinData? {
      SizeThenContentOrder([a.subtype] + a.data, [b.subtype] + b.data, [c.subtype] + c.data);
    } else if a.Regex? {
      TwoStringsOrder(EncodeValue(a), EncodeValue(b), EncodeValue(c));
    } else {
      TwoStringsOrder(ScopeStrings(a), ScopeStrings(b), ScopeStrings(c));
    }
  }

  lemma ScalarsOrdered(a: Value, b: Value, c: Value, kinds: Kinds)
    requires Canonical(a) == Canonical(b) == Canonical(c) && !a.Object? && !a.Array?
    requires kinds.Orderly() && ValueWithin(a, kinds) && ValueWithin(b, kinds) && ValueWithin(c, kinds)
    ensures Antisymmetric(CompareValues(a, b), CompareValues(b, a))
    ensures Transitive(CompareValues(a, b), CompareValues(b, c), CompareValues(a, c))
  {
    hide CompareValues;
    if IsBytes(a) {
      BytesOrdered(a, b, c);
    } else if IsText(a) {
      TextsOrdered(a, b, c);
    } else if IsNumber(a) {
      NumberValuesOrdered(a, b, c, kinds.longs);
    } else {
      PlainOrdered(a, b, c, kinds);
    }
  }

  lemma NumberValuesOrdered(a: Value, b: Value, c: Value, longs: set<int64>)
    requires Canonical(a) == Canonical(b) == Canonical(c)
    requires Apart(longs) && IsNumber(a) && IsNumber(b) && IsNumber(c)
    requires (a.Int64? ==> a.l in longs) && (b.Int64? ==> b.l in longs) && (c.Int64? ==> c.l in longs)
    ensures Antisymmetric(CompareValues(a, b), CompareValues(b, a))
    ensures Transitive(CompareValues(a, b), CompareValues(b, c), CompareValues(a, c))
  {
    hide CompareNumbers;
    hide CompareValues;
    hide Apart;
    hide Opposite;
    hide Chain;
    NumbersOrdered(a, b, c, longs);
    NumberCompare(a, b);
    NumberCompare(b, a);
    NumberCompare(b, c);
    NumberCompare(a, c);
  }

  lemma NumberCompare(a: Value, b: Value)
    requires IsNumber(a) && IsNumber(b)
    ensures CompareValues(a, b) == Success(CompareNumbers(a, b))
  {
    hide CompareNumbers;
    hide CompareDocs;
  }

  lemma PlainOrdered(a: Value, b: Value, c: Value, kinds: Kinds)
    requires Canonical(a) == Canonical(b) == Canonical(c)
    requires !(kinds.dates && kinds.stamps) && !IsBytes(a) && !IsText(a) && !IsNumber(a) && !a.Object? && !a.Array?
    requires ValueWithin(a, kinds) && ValueWithin(b, kinds) && ValueWithin(c, kinds)
    ensures Antisymmetric(CompareValues(a, b), CompareValues(b, a))
    ensures Transitive(CompareValues(a, b), CompareValues(b, c), CompareValues(a, c))
  {
    hide CompareDocs;
    hide CompareNumbers;
    hide EncodeValue;
    hide StringCmp;
    hide TwoStrings;
    hide SizeThenContent;
    hide Within;
  }

  // Antisymmetry, by recursion over the left document.

  lemma {:induction false} ValuesOpposite(a: Value, b: Value, kinds: Kinds)
    requires kinds.Orderly() && Canonical(a) == Canonical(b)
    requires ValueWithin(a, kinds) && ValueWithin(b, kinds)
    ensures Antisymmetric(CompareValues(a, b), CompareValues(b, a))
    decreases a, 1
  {
    if a.Object? {
      DocsOpposite(a.fields, b.fields, kinds);
    } else if a.Array? {
      DocsOpposite(a.items, b.items, kinds);
    } else {
      hide CompareValues;
      ScalarsOrdered(a, b, b, kinds);
    }
  }

  lemma {:induction false} ElementsOpposite(an: seq<byte>, a: Value, bn: seq<byte>, b: Value, names: bool,
                                            kinds: Kinds)
    requires kinds.Orderly() && ValueWithin(a, kinds) && ValueWithin(b, kinds)
    ensures Antisymmetric(CompareElements(an, a, bn, b, names), CompareElements(bn, b, an, a, names))
    decreases a, 2
  {
    hide CompareValues;
    hide Canonical;
    hide Lex;
    hide CStr;
    hide ValueWithin;
    LexOpposite(CStr(an), CStr(bn));
    if Canonical(a) == Canonical(b) {
      ValuesOpposite(a, b, kinds);
    }
  }

  lemma {:induction false} DocsOpposite(a: Doc, b: Doc, kinds: Kinds)
    requires kinds.Orderly() && Within(a, kinds) && Within(b, kinds)
    ensures Antisymmetric(CompareDocs(a, b), CompareDocs(b, a))
    decreases a, 0
  {
    hide CompareElements;
    hide ValueWithin;
    if a.Cons? && b.Cons? {
      ElementsOpposite(a.name, a.value, b.name, b.value, true, kinds);
      DocsOpposite(a.rest, b.rest, kinds);
    }
  }

  // Transitivity, likewise.

  lemma {:induction false} ValuesChain(a: Value, b: Value, c: Value, kinds: Kinds)
    requires kinds.Orderly() && Canonical(a) == Canonical(b) == Canonical(c)
    requires ValueWithin(a, kinds) && ValueWithin(b, kinds) && ValueWithin(c, kinds)
    ensures Transitive(CompareValues(a, b), CompareValues(b, c), CompareValues(a, c))
    decreases a, 1
  {
    if a.Object? {
      DocsChain(a.fields, b.fields, c.fields, kinds);
    } else if a.Array? {
      DocsChain(a.items, b.items, c.items, kinds);
    } else {
      hide CompareValues;
      ScalarsOrdered(a, b, c, kinds);
    }
  }

  lemma {:induction false} ElementsChain(an: seq<byte>, a: Value, bn: seq<byte>, b: Value, cn: seq<byte>, c: Value,
                                         names: bool, kinds: Kinds)
    requires kinds.Orderly()
    requires ValueWithin(a, kinds) && ValueWithin(b, kinds) && ValueWithin(c, kinds)
    ensures Transitive(CompareElements(an, a, bn, b, names), CompareElements(bn, b, cn, c, names),
                       CompareElements(an, a, cn, c, names))
    decreases a, 2
  {
    ElementsOpposite(an, a, bn, b, names, kinds);
    ElementsOpposite(bn, b, cn, c, names, kinds);
    ElementsOpposite(an, a, cn, c, names, kinds);
    hide CompareValues;
    hide Canonical;
    hide Lex;
    hide CStr;
    hide ValueWithin;
    if Canonical(a) == Canonical(b) == Canonical(c) {
      ValuesChain(a, b, c, kinds);
      hide Antisymmetric;
      ByNameFirst(an, a, bn, b, cn, c, names);
    } else {
      TypesChain(Canonical(a), Canonical(b), Canonical(c),
                 CompareElements(an, a, bn, b, names).value, CompareElements(bn, b, cn, c, names).value,
                 CompareElements(an, a, cn, c, names).value);
    }
  }

  /** Among elements of different types the types decide. */
  lemma TypesChain(a: int, b: int, c: int, ab: int, bc: int, ac: int)
    requires a != b || b != c
    requires (a != b ==> ab == a - b) && (b != c ==> bc == b - c) && (a != c ==> ac == a - c)
    ensures Chain(ab, bc, ac)
  {
  }

  /** Among elements of one type the names decide before the values do. */
  lemma ByNameFirst(an: seq<byte>, a: Value, bn: seq<byte>, b: Value, cn: seq<byte>, c: Value, names: bool)
    requires Canonical(a) == Canonical(b) == Canonical(c)
    requires Transitive(CompareValues(a, b), CompareValues(b, c), CompareValues(a, c))
    ensures Transitive(CompareElements(an, a, bn, b, names), CompareElements(bn, b, cn, c, names),
                       CompareElements(an, a, cn, c, names))
  {
    hide CompareValues;
    hide Canonical;
    hide Lex;
    hide CStr;
    LexChain(CStr(an), CStr(bn), CStr(cn));
    LexOpposite(CStr(an), CStr(bn));
    LexOpposite(CStr(bn), CStr(cn));
  }

  /** `woCompare` is transitive on documents whose longs are apart and whose dates are not mixed with timestamps. */
  lemma {:induction false} DocsChain(a: Doc, b: Doc, c: Doc, kinds: Kinds)
    requires kinds.Orderly()
    requires Within(a, kinds) && Within(b, kinds) && Within(c, kinds)
    ensures Transitive(CompareDocs(a, b), CompareDocs(b, c), CompareDocs(a, c))
    decreases a, 0
  {
    DocsOpposite(a, b, kinds);
    DocsOpposite(b, c, kinds);
    DocsOpposite(a, c, kinds);
    hide CompareElements;
    hide ValueWithin;
    if a.Cons? && b.Cons? && c.Cons? {
      ElementsChain(a.name, a.value, b.name, b.value, c.name, c.value, true, kinds);
      DocsOpposite(a.rest, b.rest, kinds);
      DocsOpposite(b.rest, c.rest, kinds);
      DocsOpposite(a.rest, c.rest, kinds);
      DocsChain(a.rest, b.rest, c.rest, kinds);
    }
  }

  /** Comparing equal is therefore an equivalence. */
  lemma EqualityIsEquivalence(a: Doc, b: Doc, c: Doc, kinds: Kinds)
    requires kinds.Orderly()
    requires Within(a, kinds) && Within(b, kinds) && Within(c, kinds)
    ensures CompareDocs(a, a) == Success(0)
    ensures CompareDocs(a, b) == Success(0) ==> CompareDocs(b, a) == Success(0)
    ensures CompareDocs(a, b) == Success(0) && CompareDocs(b, c) == Success(0) ==> CompareDocs(a, c) == Success(0)
  {
    hide CompareDocs;
    DocsOpposite(a, a, kinds);
    DocsOpposite(a, b, kinds);
    DocsChain(a, b, c, kinds);
  }

  // ----- Both conditions are needed -----

  /** `woCompare` is a total preorder on the documents of these kinds: it never throws, and its signs fit one weak order. */
  ghost predicate TotalPreorder(kinds: Kinds) {
    forall a, b, c :: Within(a, kinds) && Within(b, kinds) && Within(c, kinds) ==>
      && Antisymmetric(CompareDocs(a, b), CompareDocs(b, a))
      && Transitive(CompareDocs(a, b), CompareDocs(b, c), CompareDocs(a, c))
  }

  /** The comparison orders a class of documents exactly when no two of its longs collapse and dates never meet timestamps. */
  lemma OrderedIff(kinds: Kinds)
    ensures TotalPreorder(kinds) <==> kinds.Orderly()
  {
    if kinds.Orderly() {
      forall a, b, c | Within(a, kinds) && Within(b, kinds) && Within(c, kinds)
        ensures Antisymmetric(CompareDocs(a, b), CompareDocs(b, a))
        ensures Transitive(CompareDocs(a, b), CompareDocs(b, c), CompareDocs(a, c))
      {
        hide Within;
        hide CompareDocs;
        DocsOpposite(a, b, kinds);
        DocsChain(a, b, c, kinds);
      }
    } else if kinds.dates && kinds.stamps {
      MixedTimesThrow(kinds);
    } else {
      var x, y :| x in kinds.longs && y in kinds.longs && Round(x) == Round(y) && x < y;
      CollapseIsNoOrder(kinds, x, y);
    }
  }

  lemma MixedTimesThrow(kinds: Kinds)
    requires kinds.dates && kinds.stamps
    ensures !TotalPreorder(kinds)
  {
    DateAgainstTimestamp(0, 0);
    hide CompareValues;
    var a, b := One(Date(0)), One(Timestamp(0));
    OneCompare(a.value, b.value);
    OneWithin(a.value, kinds);
    OneWithin(b.value, kinds);
    hide Within;
    hide CompareDocs;
  }

  lemma CollapseIsNoOrder(kinds: Kinds, x: int64, y: int64)
    requires x in kinds.longs && y in kinds.longs && Round(x) == Round(y) && x < y
    ensures !TotalPreorder(kinds)
  {
    hide Round;
    CollapsingLongs(x, y);
    hide CompareValues;
    var a, b, c := One(Int64(y)), One(Double(FromLong(x))), One(Int64(x));
    OneCompare(a.value, b.value);
    OneCompare(b.value, c.value);
    OneCompare(a.value, c.value);
    OneWithin(a.value, kinds);
    OneWithin(b.value, kinds);
    OneWithin(c.value, kinds);
    hide Within;
    hide CompareDocs;
  }

  lemma OneWithin(v: Value, kinds: Kinds)
    ensures Within(One(v), kinds) <==> ValueWithin(v, kinds)
  {
    hide ValueWithin;
  }

  function One(v: Value): Doc {
    Cons([], v, Nil)
  }

  lemma OneCompare(a: Value, b: Value)
    requires Canonical(a) == Canonical(b)
    ensures CompareDocs(One(a), One(b)) == CompareValues(a, b)
  {
    hide CompareValues;
    hide Canonical;
  }

  /** Two longs that collapse onto one double are equal to it but not to each other; there always is such a double. */
  lemma CollapsingLongs(x: int64, y: int64)
    requires x < y && Round(x) == Round(y)
    ensures CompareValues(Int64(y), Double(FromLong(x))) == Success(0)
    ensures CompareValues(Double(FromLong(x)), Int64(x)) == Success(0)
    ensures CompareValues(Int64(y), Int64(x)) == Success(1)
  {
    FromLongIs(x);
    hide FromLong;
    hide DoubleOf;
    hide Round;
  }

  /** The first two such longs, and the eight bytes of the double between them. */
  lemma FirstCollapse()
    ensures var bits: Bytes8 := [0, 0, 0, 0, 0, 0, 0x40, 0x43];
      && CompareValues(Int64(TWO_53 + 1), Double(bits)) == Success(0)
      && CompareValues(Double(bits), Int64(TWO_53)) == Success(0)
      && CompareValues(Int64(TWO_53 + 1), Int64(TWO_53)) == Success(1)
  {
    hide Round;
    hide DoubleOf;
    FirstInexact();
    BytesOfTwo53();
  }

  /** A date against a timestamp throws in one direction only. */
  lemma DateAgainstTimestamp(ms: int64, t: uint64)
    ensures CompareValues(Date(ms), Timestamp(t)) == Failure(WRONG_TYPE)
    ensures CompareValues(Timestamp(t), Date(ms)).Success?
  {
  }

  /** The documents agree up to a place where the left one has a date and the right one a timestamp of that name. */
  predicate DateMeetsTimestamp(d: Doc, e: Doc)
    decreases d, 0
  {
    && d.Cons? && e.Cons?
    && if CompareElements(d.name, d.value, e.name, e.value, true) == Success(0) then DateMeetsTimestamp(d.rest, e.rest)
       else CStr(d.name) == CStr(e.name) && ValueMeetsTimestamp(d.value, e.value)
  }

  predicate ValueMeetsTimestamp(l: Value, r: Value)
    decreases l, 1
  {
    || (l.Date? && r.Timestamp?)
    || (l.Object? && r.Object? && DateMeetsTimestamp(l.fields, r.fields))
    || (l.Array? && r.Array? && DateMeetsTimestamp(l.items, r.items))
  }

  /** Comparing documents throws exactly then. */
  lemma {:induction false} ThrowsIff(d: Doc, e: Doc)
    ensures CompareDocs(d, e).Failure? <==> DateMeetsTimestamp(d, e)
    decreases d, 0
  {
    if d.Cons? && e.Cons? {
      ElementThrowsIff(d.name, d.value, e.name, e.value);
      hide CompareElements;
      hide ValueMeetsTimestamp;
      ThrowsIff(d.rest, e.rest);
    }
  }

  lemma {:induction false} ElementThrowsIff(ln: seq<byte>, l: Value, rn: seq<byte>, r: Value)
    ensures CompareElements(ln, l, rn, r, true).Failure? <==> CStr(ln) == CStr(rn) && ValueMeetsTimestamp(l, r)
    ensures CompareElements(ln, l, rn, r, true) == Success(0) ==> !(CStr(ln) == CStr(rn) && ValueMeetsTimestamp(l, r))
    decreases l, 1
  {
    LexOpposite(CStr(ln), CStr(rn));
    hide Lex;
    hide CStr;
    if Canonical(l) == Canonical(r) {
      ValueThrowsIff(l, r);
    }
    hide CompareValues;
  }

  lemma {:induction false} ValueThrowsIff(l: Value, r: Value)
    requires Canonical(l) == Canonical(r)
    ensures CompareValues(l, r).Failure? <==> ValueMeetsTimestamp(l, r)
    decreases l, 0
  {
    hide CompareNumbers;
    hide StringCmp;
    hide TwoStrings;
    hide SizeThenContent;
    hide EncodeValue;
    hide ScopeStrings;
    hide CompareDocs;
    hide DateMeetsTimestamp;
    if l.Object? {
      ThrowsIff(l.fields, r.fields);
    } else if l.Array? {
      ThrowsIff(l.items, r.items);
    }
  }

  /** NaN equals NaN and sorts below every other number. */
  lemma NaNIsLeast(nan: Bytes8, v: Value)
    requires DoubleOf(nan) == NaN && IsNumber(v)
    ensures CompareValues(Double(nan), v) == Success(if NumberOf(v) == NaN then 0 else -1)
  {
    hide DoubleOf;
  }
}
