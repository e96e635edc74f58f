/** Exactly which bytes `validate` accepts. */
module BsonValidation {
  import opened Wrappers
  import opened Bytes
  import opened BsonDocument
  import opened BsonElement
  import opened BsonRoundTrip

  lemma {:induction false} BytesOfUnsigned(s: seq<byte>)
    ensures LittleEndian(Unsigned(s), |s|) == s
  {
    if s != [] {
      BytesOfUnsigned(s[1..]);
      assert (s[0] as int + 256 * Unsigned(s[1..])) % 256 == s[0] as int;
      assert (s[0] as int + 256 * Unsigned(s[1..])) / 256 == Unsigned(s[1..]);
      assert s == [s[0]] + s[1..];
    }
  }

  /** Four bytes that read as a positive size are the bytes of that size. */
  lemma SizeBytes(s: seq<byte>)
    requires |s| == 4 && Signed(s) > 0
    ensures Signed(s) <= INT_MAX && Int32Bytes(Signed(s)) == s
  {
    BytesOfUnsigned(s);
    Powers();
  }

  predicate IsStringTag(tag: byte) {
    tag in {DB_REF, CODE, SYMBOL, STRING}
  }

  /** The memory begins with a string as it is written, and of allowed size. */
  ghost predicate BeginsWithString(s: seq<byte>) {
    exists t: seq<byte>, rest :: s == EncodeString(t) + rest && |t| + 1 < MAX_INTERNAL_SIZE
  }

  /** A string, code, symbol or reference is accepted exactly when a string of allowed size is there, with its terminator. */
  lemma ValidateStringIff(tag: byte, s: seq<byte>)
    requires IsStringTag(tag)
    ensures Validate(tag, s) == Pass <==> BeginsWithString(s)
    ensures |s| >= 4 && Signed(s[..4]) + 4 <= |s| && !BeginsWithString(s) ==> Validate(tag, s) == Fail(10321)
  {
    if Validate(tag, s) == Pass {
      StringFound(tag, s);
    }
    if t, rest: seq<byte> :| s == EncodeString(t) + rest && |t| + 1 < MAX_INTERNAL_SIZE {
      StringPasses(tag, t, rest);
    }
    hide Validate;
    hide EncodeString;
  }

  lemma StringChecked(tag: byte, s: seq<byte>)
    requires IsStringTag(tag) && Validate(tag, s) == Pass
    ensures |s| >= 4
    ensures var x := Signed(s[..4]); 0 < x < MAX_INTERNAL_SIZE && 4 + x <= |s| && s[4 + x - 1] == 0
  {
    hide Signed;
  }

  lemma StringFound(tag: byte, s: seq<byte>)
    requires IsStringTag(tag) && Validate(tag, s) == Pass
    ensures BeginsWithString(s)
  {
    StringChecked(tag, s);
    hide Validate;
    hide Signed;
    var x := Signed(s[..4]);
    SizeBytes(s[..4]);
    StringParts(s, x);
    hide Int32Bytes;
    hide EncodeString;
    assert |s[4..4 + x - 1]| + 1 < MAX_INTERNAL_SIZE;
  }

  lemma StringParts(s: seq<byte>, x: int)
    requires 1 <= x && 4 + x <= |s| && s[..4] == Int32Bytes(x) && s[4 + x - 1] == 0
    ensures s == EncodeString(s[4..4 + x - 1]) + s[4 + x..]
  {
    hide Int32Bytes;
    assert s == s[..4] + s[4..4 + x - 1] + [0] + s[4 + x..];
  }

  lemma StringPasses(tag: byte, t: seq<byte>, rest: seq<byte>)
    requires IsStringTag(tag) && |t| + 1 < MAX_INTERNAL_SIZE
    ensures Validate(tag, EncodeString(t) + rest) == Pass
  {
    SizePrefixed(|t| + 1, t + [0], rest, EncodeString(t));
    hide ReadInt;
    hide Int32Bytes;
  }

  /** The total size, the code as a string, the size of the scope. */
  function ScopeHead(code: seq<byte>, size: int): seq<byte> {
    Int32Bytes(4 + 4 + |code| + 1 + size) + EncodeString(code) + Int32Bytes(size)
  }

  /** The memory begins with code that contains no NUL and a scope that fills the total exactly and has room for its size. */
  ghost predicate BeginsWithScope(s: seq<byte>) {
    exists code: seq<byte>, size: int, rest ::
      s == ScopeHead(code, size) + rest && NulFree(code) && 4 <= size && 4 + 4 + |code| + 1 + size <= INT_MAX
  }

  /** Scoped code is accepted exactly then. Every other kind of value always is. */
  lemma ValidateScopeIff(s: seq<byte>)
    ensures Validate(CODE_W_SCOPE, s) == Pass <==> BeginsWithScope(s)
    ensures forall tag :: !IsStringTag(tag) && tag != CODE_W_SCOPE ==> Validate(tag, s) == Pass
  {
    if ValidateScope(s) == Pass {
      ScopeFound(s);
    }
    if code: seq<byte>, size: int, rest :|
      s == ScopeHead(code, size) + rest && NulFree(code) && 4 <= size && 4 + 4 + |code| + 1 + size <= INT_MAX {
      ScopePasses(code, size, rest);
    }
    hide ValidateScope;
    hide ScopeHead;
    hide NulFree;
  }

  lemma ScopeChecked(s: seq<byte>)
    requires ValidateScope(s) == Pass
    ensures |s| >= 12
    ensures var total, n := Signed(s[..4]), Signed(s[4..8]);
      && n > 0 && 8 + n + 4 <= |s| && NulFree(s[8..8 + n - 1]) && s[8 + n - 1] == 0
      && total >= n + 12 && total == 8 + n + Signed(s[8 + n..8 + n + 4])
  {
    hide Signed;
    hide StrNLen;
    var n := Signed(s[4..8]);
    assert s[8..][..n - 1] == s[8..8 + n - 1] && s[8..][n - 1] == s[8 + n - 1];
  }

  lemma ScopeFound(s: seq<byte>)
    requires ValidateScope(s) == Pass
    ensures BeginsWithScope(s)
  {
    hide ValidateScope;
    hide Signed;
    hide NulFree;
    hide Int32Bytes;
    hide BeginsWithScope;
    ScopeChecked(s);
    ScopeBytes(s);
    var n := Signed(s[4..8]);
    ScopeParts(s, n, s[8..8 + n - 1], Signed(s[8 + n..8 + n + 4]));
  }

  lemma ScopeBytes(s: seq<byte>)
    requires ValidateScope(s) == Pass && |s| >= 12
    ensures var n := Signed(s[4..8]);
      && n > 0 && 8 + n + 4 <= |s| && Signed(s[..4]) <= INT_MAX
      && s[..4] == Int32Bytes(Signed(s[..4])) && s[4..8] == Int32Bytes(n) && s[8 + n..8 + n + 4] == Int32Bytes(Signed(s[8 + n..8 + n + 4]))
  {
    hide ValidateScope;
    hide Signed;
    hide NulFree;
    hide Int32Bytes;
    ScopeChecked(s);
    var n := Signed(s[4..8]);
    SizeBytes(s[..4]);
    SizeBytes(s[4..8]);
    SizeBytes(s[8 + n..8 + n + 4]);
  }

  lemma ScopeParts(s: seq<byte>, n: int, code: seq<byte>, size: int)
    requires 1 <= n && 8 + n + 4 <= |s| && code == s[8..8 + n - 1] && s[8 + n - 1] == 0
    requires s[..4] == Int32Bytes(8 + n + size) && s[4..8] == Int32Bytes(n) && s[8 + n..8 + n + 4] == Int32Bytes(size)
    requires NulFree(code) && 4 <= size && 8 + n + size <= INT_MAX
    ensures BeginsWithScope(s)
  {
    hide Int32Bytes;
    hide NulFree;
    assert EncodeString(code) == s[4..8] + code + [0];
    hide EncodeString;
    assert s == s[..4] + (s[4..8] + code + [0]) + s[8 + n..8 + n + 4] + s[8 + n + 4..];
    assert s == ScopeHead(code, size) + s[8 + n + 4..];
  }

  lemma ScopePasses(code: seq<byte>, size: int, rest: seq<byte>)
    requires NulFree(code) && 4 <= size && 4 + 4 + |code| + 1 + size <= INT_MAX
    ensures ValidateScope(ScopeHead(code, size) + rest) == Pass
  {
    var s, n, total := ScopeHead(code, size) + rest, |code| + 1, 4 + 4 + |code| + 1 + size;
    ScopeSplit(code, size, rest);
    hide Int32Bytes;
    hide Signed;
    hide ScopeHead;
    hide EncodeString;
    Int32RoundTrip(total);
    Int32RoundTrip(n);
    Int32RoundTrip(size);
    CodeTerminated(code, Int32Bytes(size) + rest);
    hide StrNLen;
    hide NulFree;
  }

  lemma ScopeSplit(code: seq<byte>, size: int, rest: seq<byte>)
    ensures var s, n := ScopeHead(code, size) + rest, |code| + 1;
      && |s| >= 8 + n + 4 && s[..4] == Int32Bytes(4 + 4 + n + size) && s[4..8] == Int32Bytes(n)
      && s[8..] == code + [0] + (Int32Bytes(size) + rest) && s[8 + n..8 + n + 4] == Int32Bytes(size)
  {
    hide Int32Bytes;
  }
}
