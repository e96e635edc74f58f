/** `size(maxLen)`, the variant of `size()` that is told how many bytes there are. */
module BsonChecked {
  import opened Wrappers
  import opened Bytes
  import opened BsonDocument
  import opened BsonElement
  import opened BsonRoundTrip

  const INSUFFICIENT := 10313
  const VERIFY_FAILED := -2

  /** The arithmetic is unsigned: a length of -1 plus one is nothing at all. */
  function CheckedRegex(s: seq<byte>, remain: int): Result<int> {
    var n1 := StrNLen(s, remain);
    if n1.None? then Failure(OUTSIDE) else
    var x := remain - n1.value - 1;
    if x < 0 then Failure(VERIFY_FAILED) else
    var n2 := StrNLen(s[n1.value + 1..], x);
    if n2.None? then Failure(OUTSIDE) else
    Success(n1.value + 1 + n2.value + 1)
  }

  predicate IsSized(tag: byte) {
    tag in {SYMBOL, CODE, STRING, CODE_W_SCOPE, DB_REF, OBJECT, ARRAY, BIN_DATA}
  }

  /** The type switch of `size(maxLen)`, with `remain` bytes said to be left for the value. */
  function CheckedSize(tag: byte, s: seq<byte>, remain: int): Result<int> {
    if tag == REGEX then CheckedRegex(s, remain)
    else if IsSized(tag) && remain <= 3 then Failure(INSUFFICIENT)
    else ValueSize(tag, s)
  }

  /**
   * Exactly when the checked size is right. Sizes stored in the element are only asked for four bytes, and
   * fixed sizes for none: apart from regular expressions the limit is not compared with the size. `remain` is negative
   * when the limit does not even cover the type and the name.
   */
  lemma CheckedSizeIs(v: Value, tail: seq<byte>, remain: int)
    requires ValueOk(v) && |EncodeValue(v)| <= INT_MAX && remain <= |EncodeValue(v) + tail|
    ensures CheckedSize(Tag(v), EncodeValue(v) + tail, remain) == Success(|EncodeValue(v)|)
      <==> (IsSized(Tag(v)) ==> remain > 3) && (v.Regex? ==> |EncodeValue(v)| <= remain)
  {
    hide ValueSize;
    hide CheckedRegex;
    hide EncodeList;
    SizeOfValue(v, tail);
    if v.Regex? {
      RegexBytes(v.pattern, v.options);
      CheckedRegexIs(v.pattern, v.options, tail, remain);
    }
    hide EncodeValue;
  }

  lemma CheckedRegexIs(pattern: seq<byte>, options: seq<byte>, tail: seq<byte>, remain: int)
    requires NulFree(pattern) && NulFree(options)
    requires remain <= |pattern + [0] + options + [0] + tail|
    ensures CheckedRegex(pattern + [0] + options + [0] + tail, remain) == Success(|pattern| + |options| + 2)
      <==> |pattern| + |options| + 2 <= remain
  {
    var s, rest := pattern + [0] + options + [0] + tail, options + [0] + tail;
    hide StrNLen;
    RegexLayout(pattern, options, tail);
    BoundedLength(pattern, rest, remain);
    if |pattern| < remain {
      BoundedLength(options, tail, remain - |pattern| - 1);
    } else {
      assert s[-1 + 1..] == s;
    }
    hide NulFree;
  }

  /** The length of a C string if its terminator is within the limit, and -1 otherwise. */
  lemma BoundedLength(s: seq<byte>, tail: seq<byte>, n: int)
    requires NulFree(s) && n <= |s + [0] + tail|
    ensures StrNLen(s + [0] + tail, n) == Some(if |s| < n then |s| else -1)
  {
    StrLenOfCString(s, tail);
    hide StrLen;
  }

  /** A regular expression that is not terminated within the limit is given the size 0. */
  lemma UnterminatedRegexIsEmpty(s: seq<byte>, remain: nat)
    requires remain <= |s| && forall i :: 0 <= i < remain ==> s[i] != 0
    ensures CheckedRegex(s, remain) == Success(0)
  {
    hide StrNLen;
    NoneWithin(s, remain);
    assert s[-1 + 1..] == s;
  }

  lemma NoneWithin(s: seq<byte>, n: nat)
    requires n <= |s| && forall i :: 0 <= i < n ==> s[i] != 0
    ensures StrNLen(s, n) == Some(-1)
  {
    hide StrLen;
    assert StrLen(s).Some? ==> StrLen(s).value >= n;
  }
}
