/** The configuration file parser and printer. */
module ConfigParser {
  import opened ConfigText

  type Contents = map<string, string>

  datatype Syntax = Syntax(delimiter: string, comment: string, sentry: string) {
    function Strip(line: string): string {
      match Find(line, comment)
      case None => line
      case Some(i) => line[..i]
    }

    predicate HasSentry(line: string) {
      sentry != "" && Occurs(line, sentry)
    }
  }

  // ----- The loops as functions of the stream -----

  /** Whether a line read ahead ends the value. */
  predicate EndsValue(c: Syntax, line: string) {
    Trim(line) == "" || Occurs(c.Strip(line), c.delimiter) || c.HasSentry(c.Strip(line))
  }

  function Extended(c: Syntax, value: string, line: string): string {
    (if Trim(c.Strip(line)) != "" then value + "\n" else value) + c.Strip(line)
  }

  /** The inner loop: the value, the line read ahead, and the stream, when it ends. */
  function ReadAhead(c: Syntax, s: In, value: string, nextLine: string): (r: (string, string, In))
    ensures Measure(r.2) <= Measure(s) && (!s.fail ==> Measure(r.2) < Measure(s))
    ensures s.fail ==> r == (value, nextLine, s)
    decreases Measure(s)
  {
    if s.fail then (value, nextLine, s)
    else
      var (s', l) := GetLine(s, nextLine);
      if Trim(l) == "" then (value, l, s')
      else if EndsValue(c, l) then (value, c.Strip(l), s')
      else ReadAhead(c, s', Extended(c, value, l), c.Strip(l))
  }

  /** The outer loop: the contents when it ends. */
  function ReadAll(c: Syntax, s: In, nextLine: string, contents: Contents): Contents
    decreases Measure(s), if nextLine == "" then 0 else 2
  {
    if nextLine != "" then WithLine(c, s, nextLine, contents)
    else if s.fail then contents
    else
      var (s', line) := GetLine(s, "");
      WithLine(c, s', line, contents)
  }

  /** One round of the outer loop, once it has its line. */
  function WithLine(c: Syntax, s: In, line: string, contents: Contents): Contents
    decreases Measure(s), 1
  {
    if c.HasSentry(c.Strip(line)) then contents
    else
      match Find(c.Strip(line), c.delimiter)
      case None => ReadAll(c, s, "", contents)
      case Some(i) =>
        var (value, next, s') := ReadAhead(c, s, c.Strip(line)[i + |c.delimiter|..], "");
        ReadAll(c, s', next, contents[Trim(c.Strip(line)[..i]) := Trim(value)])
  }

  /** `is >> cf` on a fresh stream over `text`. */
  function Parse(c: Syntax, text: string, contents: Contents): Contents {
    ReadAll(c, In(text, false, false), "", contents)
  }

  // ----- The parser object -----

  class ConfigFileParser {
    const syntax: Syntax
    var contents: Contents

    constructor (syntax: Syntax)
      ensures this.syntax == syntax && contents == map[]
    {
      this.syntax, contents := syntax, map[];
    }

    /** `operator>>`. */
    method Read(text: string)
      modifies this`contents
      ensures contents == Parse(syntax, text, old(contents))
    {
      hide Find;
      hide Trim;
      hide GetLine;
      hide Measure;
      hide ReadAhead;
      var stream := In(text, false, false);
      var nextLine := "";
      while !stream.fail || |nextLine| > 0
        invariant ReadAll(syntax, stream, nextLine, contents) == Parse(syntax, text, old(contents))
        decreases Measure(stream), |nextLine|
      {
        var line := "";
        if |nextLine| > 0 {
          line := nextLine;
          nextLine := "";
        } else {
          var got := GetLine(stream, line);
          stream, line := got.0, got.1;
        }
        line := syntax.Strip(line);
        if syntax.sentry != "" && Occurs(line, syntax.sentry) {
          return;
        }
        var found := Find(line, syntax.delimiter);
        if found.Some? {
          var key := line[..found.value];
          line := line[found.value + |syntax.delimiter|..];
          line, nextLine, stream := ReadValue(line, nextLine, stream);
          contents := contents[Trim(key) := Trim(line)];
        }
      }
    }

    /** The inner loop of `operator>>`: stops at a blank line, a line with a key, the sentry, or the end of the stream. */
    method ReadValue(line: string, nextLine: string, stream: In) returns (line': string, nextLine': string, stream': In)
      ensures (line', nextLine', stream') == ReadAhead(syntax, stream, line, nextLine)
    {
      hide Find;
      hide Trim;
      hide GetLine;
      hide Measure;
      line', nextLine', stream' := line, nextLine, stream;
      var terminate := false;
      while !terminate && !stream'.fail
        invariant terminate ==> (line', nextLine', stream') == ReadAhead(syntax, stream, line, nextLine)
        invariant !terminate ==> ReadAhead(syntax, stream', line', nextLine') == ReadAhead(syntax, stream, line, nextLine)
        decreases Measure(stream'), !terminate
      {
        var got := GetLine(stream', nextLine');
        stream', nextLine' := got.0, got.1;
        terminate := true;
        if Trim(nextLine') == "" {
          continue;
        }
        nextLine' := syntax.Strip(nextLine');
        if Occurs(nextLine', syntax.delimiter) {
          continue;
        }
        if syntax.sentry != "" && Occurs(nextLine', syntax.sentry) {
          continue;
        }
        if Trim(nextLine') != "" {
          line' := line' + "\n";
        }
        line' := line' + nextLine';
        terminate := false;
      }
    }

    /** `operator<<`. The order in which a `std::map` lists its keys makes no difference to the results below. */
    method Write() returns (text: string)
      ensures exists order :: Lists(order, contents) && text == Printed(syntax, contents, order)
    {
      text := "";
      ghost var order: seq<string> := [];
      var todo := contents.Keys;
      while todo != {}
        invariant todo <= contents.Keys && (forall k :: k in order <==> k in contents && k !in todo)
        invariant forall i, j :: 0 <= i < j < |order| ==> order[i] != order[j]
        invariant text == Printed(syntax, contents, order)
        decreases |todo|
      {
        var k :| k in todo;
        assert (order + [k])[..|order|] == order;
        text := text + PrintedEntry(syntax, k, contents[k]);
        order, todo := order + [k], todo - {k};
      }
    }
  }

  /** `order` is a list of the keys without repetition. */
  ghost predicate Lists(order: seq<string>, contents: Contents) {
    && (forall k :: k in order <==> k in contents)
    && forall i, j :: 0 <= i < j < |order| ==> order[i] != order[j]
  }

  function PrintedEntry(c: Syntax, key: string, value: string): string {
    key + " " + c.delimiter + " " + value + "\n"
  }

  ghost function Printed(c: Syntax, contents: Contents, order: seq<string>): string
    requires forall k :: k in order ==> k in contents
  {
    if order == [] then ""
    else Printed(c, contents, order[..|order| - 1]) + PrintedEntry(c, order[|order| - 1], contents[order[|order| - 1]])
  }
}
