/** Members of a replica set as the client sees them. */
module ReplicaNode {
  import opened Wrappers
  import Decimal

  const DEFAULT_PORT := 27017
  const EMPTY_HOST := 13110
  const BAD_PORT := 13095

  /** A host and its effective port; `NoHost` is the default-constructed, empty one. */
  datatype Host = NoHost | At(name: string, port: int)

  type Address = h: Host | h.At? witness At("localhost", DEFAULT_PORT)

  // ----- Parsing `host[:port]` -----

  predicate IsSpace(c: char) {
    c == ' ' || '\t' <= c <= '\r'
  }

  function Digits(s: string): nat {
    Decimal.Read(s, 0, Decimal.Value).0
  }

  /** `atoi`: leading blanks, one sign, then digits. */
  function AToI(s: string): int {
    if s == "" then 0
    else if IsSpace(s[0]) then AToI(s[1..])
    else if s[0] == '-' then -(Digits(s[1..]) as int)
    else if s[0] == '+' then Digits(s[1..])
    else Digits(s)
  }

  /** `strrchr`: the position of the last occurrence of `c`. */
  function LastIndex(s: string, c: char): (r: Option<nat>)
    ensures r.Some? ==> r.value < |s| && s[r.value] == c && c !in s[r.value + 1..]
    ensures r.None? <==> c !in s
  {
    if s == "" then None
    else if s[|s| - 1] == c then Some(|s| - 1)
    else
      var r := LastIndex(s[..|s| - 1], c);
      assert s == s[..|s| - 1] + [s[|s| - 1]];
      if r.Some? then
        assert s[r.value + 1..] == s[..|s| - 1][r.value + 1..] + [s[|s| - 1]];
        r
      else None
  }

  /** `HostAndPort(string)`. */
  function Parse(s: string): (r: Result<Host>)
    ensures r.Success? ==> r.value.At?
  {
    if s == "" then Failure(EMPTY_HOST) else
    match LastIndex(s, ':')
    case None => Success(At(s, DEFAULT_PORT))
    case Some(colon) =>
      var port := AToI(s[colon + 1..]);
      if port > 0 then Success(At(s[..colon], port)) else Failure(BAD_PORT)
  }

  // ----- Nodes -----

  datatype TagValue = Text(s: string) | Number(r: real)

  /** A tag criterion: field names and the values they must have. */
  type Criteria = seq<(string, TagValue)>

  datatype Node = Node(
    addr: Address,
    conn: string,  // the server address of this node's connection
    ok: bool,
    ismaster: bool,
    secondary: bool,
    hidden: bool,
    pingTimeMillis: int,
    tags: Option<map<string, TagValue>>)  // `lastIsMaster["tags"]` when it is an object
  {
    predicate OkForSecondaryQueries() {
      ok && secondary && !hidden
    }

    predicate IsLocalSecondary(threshold: int) {
      pingTimeMillis < threshold
    }

    ghost predicate Matches(tag: Criteria) {
      tag == [] ||
      (tags.Some? && forall i :: 0 <= i < |tag| ==> tag[i].0 in tags.value && tags.value[tag[i].0] == tag[i].1)
    }

    method MatchesTag(tag: Criteria) returns (r: bool)
      ensures r == Matches(tag)
    {
      if tag == [] {
        return true;
      }
      if tags.None? {
        return false;
      }
      for i := 0 to |tag|
        invariant forall j :: 0 <= j < i ==> tag[j].0 in tags.value && tags.value[tag[j].0] == tag[j].1
      {
        if tag[i].0 !in tags.value || tags.value[tag[i].0] != tag[i].1 {
          return false;
        }
      }
      return true;
    }
  }

  /** A newly added member; `conn` is the address the connection was made to. */
  function NewNode(addr: Address, conn: string): Node {
    Node(addr, conn, true, false, false, false, 0, None)
  }
}
