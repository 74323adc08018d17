/** The first script: list every registry owner and write them out as a
    quoted, semicolon-terminated list, one address per line. */
module V1Holders {
  import opened Registry

  datatype Option<T> = None | Some(value: T)

  /** An address that fits on one line of the output. */
  predicate OneLine(s: string) {
    '\n' !in s
  }

  /** `Array.prototype.join`: the parts with `sep` between consecutive ones;
      no parts give the empty string. */
  function Join(parts: seq<string>, sep: string): string {
    if parts == [] then []
    else if |parts| == 1 then parts[0]
    else parts[0] + sep + Join(parts[1..], sep)
  }

  /** The separator the script joins addresses with. */
  const Separator: string := "\";\n\""

  /** The text written to `v1-holders.txt`. */
  function Serialize(holders: seq<string>): string {
    "\"" + Join(holders, Separator) + "\";"
  }

  /** One output line: an address in double quotes, followed by `;`. */
  function Quote(addr: string): string {
    "\"" + addr + "\";"
  }

  function QuoteAll(holders: seq<string>): (lines: seq<string>)
    ensures |lines| == |holders|
    ensures forall i :: 0 <= i < |holders| ==> lines[i] == Quote(holders[i])
  {
    if holders == [] then [] else [Quote(holders[0])] + QuoteAll(holders[1..])
  }

  /** Per-element form: a non-empty list is written as one quoted line per
      address, with a newline between consecutive lines. */
  lemma {:induction false} SerializeLines(holders: seq<string>)
    requires holders != []
    ensures Serialize(holders) == Join(QuoteAll(holders), "\n")
  {
    if |holders| > 1 {
      var h, t := holders[0], holders[1..];
      SerializeLines(t);
      assert QuoteAll(holders)[1..] == QuoteAll(t);
      calc {
        Serialize(holders);
        "\"" + (h + Separator + Join(t, Separator)) + "\";";
        ("\"" + h + "\";") + "\n" + ("\"" + Join(t, Separator) + "\";");
        Quote(h) + "\n" + Join(QuoteAll(t), "\n");
      }
    }
  }

  /** No addresses still produce one entry: the three characters `"";`,
      the same text as a list holding one empty address. */
  lemma SerializeEmpty()
    ensures Serialize([]) == "\"\";"
    ensures Serialize([]) == Serialize([""])
  {
  }

  /** The lines of a text: the pieces between newlines, in order. A text
      without a newline is one line; a trailing newline ends in an empty line. */
  function Lines(s: string): (lines: seq<string>)
    ensures |lines| >= 1
  {
    if s == [] then [""]
    else
      var rest := Lines(s[1..]);
      if s[0] == '\n' then [""] + rest else [[s[0]] + rest[0]] + rest[1..]
  }

  /** Strips the surrounding `"` and `";` from one line. */
  function Unquote(line: string): Option<string> {
    if |line| >= 3 && line[0] == '"' && line[|line| - 2] == '"' && line[|line| - 1] == ';'
    then Some(line[1..|line| - 2])
    else None
  }

  function UnquoteAll(lines: seq<string>): Option<seq<string>> {
    if lines == [] then Some([])
    else match (Unquote(lines[0]), UnquoteAll(lines[1..]))
      case (Some(a), Some(rest)) => Some([a] + rest)
      case _ => None
  }

  /** Reads a holder list back: split on newlines, unquote every line. */
  function Parse(s: string): Option<seq<string>> {
    UnquoteAll(Lines(s))
  }

  lemma UnquoteQuote(addr: string)
    ensures Unquote(Quote(addr)) == Some(addr)
  {
    var q := Quote(addr);
    assert q[1..|q| - 2] == addr;
  }

  lemma {:induction false} LinesOfOneLine(p: string)
    requires OneLine(p)
    ensures Lines(p) == [p]
  {
    if p != [] {
      assert p[0] in p;
      assert forall c :: c in p[1..] ==> c in p;
      LinesOfOneLine(p[1..]);
      assert [p[0]] + p[1..] == p;
    }
  }

  /** A newline ends the line before it and nothing else. */
  lemma {:induction false} LinesAfterNewline(p: string, t: string)
    requires OneLine(p)
    ensures Lines(p + "\n" + t) == [p] + Lines(t)
  {
    var s := p + "\n" + t;
    if p == [] {
      assert s[1..] == t;
    } else {
      assert p[0] in p;
      assert forall c :: c in p[1..] ==> c in p;
      assert s[1..] == p[1..] + "\n" + t;
      LinesAfterNewline(p[1..], t);
      assert [p[0]] + p[1..] == p;
    }
  }

  /** Splitting a newline-joined list of one-line texts gives the list back. */
  lemma {:induction false} LinesOfJoin(parts: seq<string>)
    requires parts != []
    requires forall p :: p in parts ==> OneLine(p)
    ensures Lines(Join(parts, "\n")) == parts
  {
    assert parts[0] in parts;
    if |parts| == 1 {
      LinesOfOneLine(parts[0]);
    } else {
      assert forall p :: p in parts[1..] ==> p in parts;
      LinesOfJoin(parts[1..]);
      LinesAfterNewline(parts[0], Join(parts[1..], "\n"));
      assert [parts[0]] + parts[1..] == parts;
    }
  }

  lemma {:induction false} UnquoteAllQuoteAll(holders: seq<string>)
    ensures UnquoteAll(QuoteAll(holders)) == Some(holders)
  {
    if holders != [] {
      UnquoteQuote(holders[0]);
      UnquoteAllQuoteAll(holders[1..]);
      assert QuoteAll(holders)[1..] == QuoteAll(holders[1..]);
      assert [holders[0]] + holders[1..] == holders;
    }
  }

  /** Round trip: a non-empty list of one-line addresses is read back exactly.
      Quotes inside an address do no harm, since stripping is positional. */
  lemma ParseSerialize(holders: seq<string>)
    requires holders != []
    requires forall h :: h in holders ==> OneLine(h)
    ensures Parse(Serialize(holders)) == Some(holders)
  {
    var lines := QuoteAll(holders);
    forall l | l in lines
      ensures OneLine(l)
    {
      var i :| 0 <= i < |lines| && lines[i] == l;
      assert holders[i] in holders;
    }
    SerializeLines(holders);
    LinesOfJoin(lines);
    UnquoteAllQuoteAll(holders);
  }

  /** Joining n one-line texts with newlines puts exactly n - 1 newlines in. */
  lemma {:induction false} NewlinesOfJoin(parts: seq<string>)
    requires parts != []
    requires forall p :: p in parts ==> OneLine(p)
    ensures multiset(Join(parts, "\n"))['\n'] == |parts| - 1
  {
    assert parts[0] in parts;
    if |parts| > 1 {
      assert forall p :: p in parts[1..] ==> p in parts;
      NewlinesOfJoin(parts[1..]);
    }
  }

  /** The output of n >= 1 one-line addresses has exactly n - 1 newlines. */
  lemma NewlineCount(holders: seq<string>)
    requires holders != []
    requires forall h :: h in holders ==> OneLine(h)
    ensures multiset(Serialize(holders))['\n'] == |holders| - 1
  {
    var lines := QuoteAll(holders);
    forall l | l in lines
      ensures OneLine(l)
    {
      var i :| 0 <= i < |lines| && lines[i] == l;
      assert holders[i] in holders;
    }
    SerializeLines(holders);
    NewlinesOfJoin(lines);
  }

  /** The whole first script, from the registry to the text it writes. */
  function FetchV1Holders(registry: seq<Entry>): string {
    Serialize(Owners(registry))
  }

  /** Every registry record contributes one line, in registry order, and its
      owner is read back from that line; the sentinel owner is kept too. */
  lemma FetchV1HoldersLines(registry: seq<Entry>)
    requires registry != []
    requires forall i :: 0 <= i < |registry| ==> OneLine(registry[i].owner)
    ensures Parse(FetchV1Holders(registry)) == Some(Owners(registry))
    ensures multiset(FetchV1Holders(registry))['\n'] == |registry| - 1
  {
    var owners := Owners(registry);
    forall h | h in owners
      ensures OneLine(h)
    {
      var i :| 0 <= i < |owners| && owners[i] == h;
    }
    ParseSerialize(owners);
    NewlineCount(owners);
  }
}
