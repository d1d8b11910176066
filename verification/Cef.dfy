/** CEF printing, and a parser that undoes it: split the header at the first seven
    pipes, then the extension at each '=' and at the last space before the next. */
module Cef {
  import opened Options
  import opened Text

  datatype Pair = Pair(key: string, value: string)

  datatype Line = Line(header: seq<string>, extension: seq<Pair>)

  /** A dictionary entry: no such key, a falsy value, or the text of a truthy one. */
  datatype Entry = Missing | Falsy | Value(text: string)

  /** `title` is the language's title-casing, which is not part of this model. */
  datatype Event = Event(
    ruleName: Option<string>, eventType: Option<string>, severity: string,
    agentId: Entry, tenantId: Entry, destIp: Entry, destPort: Entry,
    message: Entry, description: Entry, attackClass: Entry)

  function Pipe(): char -> bool {
    c => c == '|'
  }

  function Equals(): char -> bool {
    c => c == '='
  }

  // ---- sanitizing ----

  function Kept(s: string): string {
    if s == "" then ""
    else
      var front, c := Kept(s[..|s| - 1]), s[|s| - 1];
      if c == '|' || c == '\\' then front else front + [c]
  }

  function Clip(s: string, n: nat): (r: string)
    ensures r <= s && |r| <= n
  {
    if |s| <= n then s else s[..n]
  }

  function SanitizeHeader(s: string): string {
    Clip(Kept(s), 63)
  }

  function Masked(c: char): char {
    if c == '=' || c == '\\' || c == '\n' || c == '\r' then '_' else c
  }

  function SanitizeExt(s: string): string {
    Clip(seq(|s|, i requires 0 <= i < |s| => Masked(s[i])), 1024)
  }

  predicate Free(s: string, p: char -> bool) {
    forall i :: 0 <= i < |s| ==> !p(s[i])
  }

  lemma {:induction false} KeptFree(s: string)
    ensures Free(Kept(s), Pipe()) && '\\' !in Kept(s)
  {
    if s != "" { KeptFree(s[..|s| - 1]); }
  }

  /** Sanitized header fields have no pipe and no backslash, sanitized values no '='
      and no line break; and sanitizing again, or cutting first, changes nothing. */
  lemma SanitizedFacts(s: string)
    ensures Free(SanitizeHeader(s), Pipe()) && '\\' !in SanitizeHeader(s) && |SanitizeHeader(s)| <= 63
    ensures Free(SanitizeExt(s), Equals()) && '\n' !in SanitizeExt(s) && '\r' !in SanitizeExt(s)
    ensures SanitizeExt(SanitizeExt(s)) == SanitizeExt(s) == SanitizeExt(Clip(s, 1024))
  {
    KeptFree(s);
  }

  // ---- printing ----

  function PrintPair(p: Pair): string {
    p.key + "=" + p.value
  }

  function PrintPairs(ps: seq<Pair>): string {
    if ps == [] then ""
    else if |ps| == 1 then PrintPair(ps[0])
    else PrintPair(ps[0]) + " " + PrintPairs(ps[1..])
  }

  function PrintHeader(fields: seq<string>): string {
    if fields == [] then "" else fields[0] + "|" + PrintHeader(fields[1..])
  }

  function Severity(s: string): string {
    if s == "critical" then "10" else if s == "high" then "8" else if s == "medium" then "5"
    else if s == "low" then "3" else "1"
  }

  function RuleName(e: Event): string {
    if e.ruleName.Some? then e.ruleName.value else if e.eventType.Some? then e.eventType.value else "unknown"
  }

  function Spaced(s: string): string {
    seq(|s|, i requires 0 <= i < |s| => if s[i] == '_' then ' ' else s[i])
  }

  function Header(e: Event, title: string -> string): (h: seq<string>)
    ensures |h| == 7
  {
    ["CEF:0", "Phantex", "Phantex", "1.0", SanitizeHeader(RuleName(e)), SanitizeHeader(title(Spaced(RuleName(e)))),
     Severity(e.severity)]
  }

  function Labelled(e: Entry, n: string, name: string): seq<Pair> {
    if e.Value? then [Pair("cs" + n + "Label", name), Pair("cs" + n, SanitizeExt(e.text))] else []
  }

  function Plain(e: Entry, key: string): seq<Pair> {
    if e.Value? then [Pair(key, SanitizeExt(e.text))] else []
  }

  function Message(e: Event): Entry {
    match if e.message.Missing? then e.description else e.message
    case Value(t) => Value(Clip(t, 1024))
    case _ => Falsy
  }

  function Extension(e: Event): seq<Pair> {
    Labelled(e.agentId, "1", "agent_id") + Labelled(e.tenantId, "2", "tenant_id")
    + Plain(e.destIp, "dst") + Plain(e.destPort, "dpt") + Plain(Message(e), "msg")
    + Labelled(e.attackClass, "3", "attack_class")
  }

  function PrintLine(l: Line): string {
    PrintHeader(l.header) + PrintPairs(l.extension)
  }

  // ---- parsing ----

  /** The position of the last space, |s| if there is none. */
  function LastSpace(s: string): (i: nat)
    ensures i <= |s|
  {
    if s == "" then 0
    else if s[|s| - 1] == ' ' then |s| - 1
    else if LastSpace(s[..|s| - 1]) == |s| - 1 then |s|
    else LastSpace(s[..|s| - 1])
  }

  function ParsePairs(s: string): seq<Pair>
    decreases |s|
  {
    var i := IndexOf(s, Equals());
    if i == |s| then []
    else
      var rest := s[i + 1..];
      var j := IndexOf(rest, Equals());
      if j == |rest| then [Pair(s[..i], rest)]
      else
        var sp := LastSpace(rest[..j]);
        [Pair(s[..i], rest[..sp])] + if sp < j then ParsePairs(rest[sp + 1..]) else []
  }

  function ParseHeader(s: string, n: nat): Option<(seq<string>, string)>
    decreases n
  {
    if n == 0 then Some(([], s))
    else
      var i := IndexOf(s, Pipe());
      if i == |s| then None
      else
        match ParseHeader(s[i + 1..], n - 1)
        case None => None
        case Some(r) => Some(([s[..i]] + r.0, r.1))
  }

  function ParseLine(s: string): Option<Line> {
    match ParseHeader(s, 7)
    case None => None
    case Some(r) => Some(Line(r.0, ParsePairs(r.1)))
  }

  // ---- parse after print ----

  predicate CleanPair(p: Pair) {
    Free(p.key, Equals()) && ' ' !in p.key && Free(p.value, Equals())
  }

  lemma IndexAt(s: string, p: char -> bool, front: string, c: char, back: string)
    requires s == front + [c] + back && Free(front, p) && p(c)
    ensures IndexOf(s, p) == |front| && s[..|front|] == front && s[|front| + 1..] == back
  {
    assert s[|front|] == c && forall j :: 0 <= j < |front| ==> s[j] == front[j];
  }

  lemma {:induction false} LastSpaceAt(v: string, key: string)
    requires ' ' !in key
    ensures LastSpace(v + " " + key) == |v|
    decreases |key|
  {
    var s := v + " " + key;
    if key != "" {
      assert s[..|s| - 1] == v + " " + key[..|key| - 1];
      assert s[|s| - 1] == key[|key| - 1] && key[|key| - 1] in key;
      LastSpaceAt(v, key[..|key| - 1]);
    }
  }

  lemma ParseLast(k: string, v: string)
    requires Free(k, Equals()) && Free(v, Equals())
    ensures ParsePairs(k + "=" + v) == [Pair(k, v)]
  {
    IndexAt(k + "=" + v, Equals(), k, '=', v);
  }

  lemma ParseNext(k: string, v: string, key: string, tail: string)
    requires Free(k, Equals()) && Free(v, Equals()) && Free(key, Equals()) && ' ' !in key
    requires exists rest :: tail == key + "=" + rest
    ensures ParsePairs(k + "=" + (v + " " + tail)) == [Pair(k, v)] + ParsePairs(tail)
  {
    IndexAt(k + "=" + (v + " " + tail), Equals(), k, '=', v + " " + tail);
    NextKey(v, key, tail);
  }

  lemma {:induction false} PairsRoundTrip(ps: seq<Pair>)
    requires forall i :: 0 <= i < |ps| ==> CleanPair(ps[i])
    ensures ParsePairs(PrintPairs(ps)) == ps
  {
    if |ps| == 1 {
      ParseLast(ps[0].key, ps[0].value);
      assert ps == [Pair(ps[0].key, ps[0].value)];
    } else if |ps| > 1 {
      PairsRoundTrip(ps[1..]);
      NextPair(ps, PrintPairs(ps[1..]));
    }
  }

  lemma NextPair(ps: seq<Pair>, tail: string)
    requires |ps| > 1 && CleanPair(ps[0]) && CleanPair(ps[1]) && tail == PrintPairs(ps[1..])
    requires ParsePairs(tail) == ps[1..]
    ensures ParsePairs(PrintPairs(ps)) == ps
  {
    PrintedStartsWithKey(ps[1..]);
    assert PrintPairs(ps) == ps[0].key + "=" + (ps[0].value + " " + PrintPairs(ps[1..]));
    ParseNext(ps[0].key, ps[0].value, ps[1].key, tail);
    assert ps == [ps[0]] + ps[1..];
  }

  lemma PrintedStartsWithKey(ps: seq<Pair>)
    requires ps != []
    ensures exists rest :: PrintPairs(ps) == ps[0].key + "=" + rest
  {
    if |ps| == 1 {
      assert PrintPairs(ps) == ps[0].key + "=" + ps[0].value;
    } else {
      assert PrintPairs(ps) == ps[0].key + "=" + (ps[0].value + " " + PrintPairs(ps[1..]));
    }
  }

  lemma NextKey(v: string, key: string, tail: string)
    requires Free(v, Equals()) && Free(key, Equals()) && ' ' !in key
    requires exists rest :: tail == key + "=" + rest
    ensures var s := v + " " + tail;
            var j := IndexOf(s, Equals());
            && j < |s| && LastSpace(s[..j]) == |v| && |v| < j && s[..|v|] == v && s[|v| + 1..] == tail
  {
    var rest :| tail == key + "=" + rest;
    var s := v + " " + tail;
    assert s == (v + " " + key) + ['='] + rest;
    IndexAt(s, Equals(), v + " " + key, '=', rest);
    LastSpaceAt(v, key);
  }

  lemma ParseField(field: string, rest: string, n: nat)
    requires Free(field, Pipe()) && n > 0 && ParseHeader(rest, n - 1).Some?
    ensures ParseHeader(field + "|" + rest, n) ==
            var r := ParseHeader(rest, n - 1).value; Some(([field] + r.0, r.1))
  {
    IndexAt(field + "|" + rest, Pipe(), field, '|', rest);
  }

  lemma NextField(fields: seq<string>, line: string, tail: string, rest: string)
    requires fields != [] && Free(fields[0], Pipe()) && line == fields[0] + "|" + tail
    requires ParseHeader(tail, |fields| - 1) == Some((fields[1..], rest))
    ensures ParseHeader(line, |fields|) == Some((fields, rest))
  {
    ParseField(fields[0], tail, |fields|);
    assert fields == [fields[0]] + fields[1..];
  }

  lemma {:induction false} HeaderRoundTrip(fields: seq<string>, rest: string)
    requires forall i :: 0 <= i < |fields| ==> Free(fields[i], Pipe())
    ensures ParseHeader(PrintHeader(fields) + rest, |fields|) == Some((fields, rest))
  {
    if fields == [] {
      assert PrintHeader(fields) + rest == rest;
    } else {
      HeaderRoundTrip(fields[1..], rest);
      NextField(fields, PrintHeader(fields) + rest, PrintHeader(fields[1..]) + rest, rest);
    }
  }

  lemma CleanEntries(n: string, name: string, key: string, e: Entry)
    requires Free(name, Equals()) && Free(n, Equals()) && ' ' !in n && Free(key, Equals()) && ' ' !in key
    ensures forall p :: p in Labelled(e, n, name) || p in Plain(e, key) ==> CleanPair(p)
  {
  }

  lemma CleanExtension(e: Event)
    ensures forall p :: p in Extension(e) ==> CleanPair(p)
  {
    CleanEntries("1", "agent_id", "dst", e.agentId);
    CleanEntries("2", "tenant_id", "dst", e.tenantId);
    CleanEntries("1", "agent_id", "dst", e.destIp);
    CleanEntries("1", "agent_id", "dpt", e.destPort);
    CleanEntries("1", "agent_id", "msg", Message(e));
    CleanEntries("3", "attack_class", "dst", e.attackClass);
  }

  /** The printed line of any event, whatever pipes, equals signs, spaces and line
      breaks its values contain, parses back to the sanitized header fields and
      exactly the key/value list that was printed. */
  lemma ToCefRoundTrip(e: Event, title: string -> string)
    ensures ParseLine(PrintLine(Line(Header(e, title), Extension(e)))) == Some(Line(Header(e, title), Extension(e)))
  {
    var h := Header(e, title);
    SanitizedFacts(RuleName(e));
    SanitizedFacts(title(Spaced(RuleName(e))));
    HeaderRoundTrip(h, PrintPairs(Extension(e)));
    CleanExtension(e);
    PairsRoundTrip(Extension(e));
  }

  /** The sanitizers remove what has to go: a value comes back if and only if it has
      no '=' ... */
  lemma ValueComesBackIff(key: string, value: string)
    requires Free(key, Equals()) && ' ' !in key
    ensures ParsePairs(key + "=" + value) == [Pair(key, value)] <==> Free(value, Equals())
  {
    if Free(value, Equals()) {
      ParseLast(key, value);
    } else {
      var s, j := key + "=" + value, IndexOf(value, Equals());
      IndexAt(s, Equals(), key, '=', value);
      var sp := LastSpace(value[..j]);
      assert ParsePairs(s)[0] == Pair(key, value[..sp]);
      assert |value[..sp]| < |value|;
    }
  }

  /** ... and a header field if and only if it has no pipe. */
  lemma FieldComesBackIff(field: string, rest: string)
    ensures ParseHeader(field + "|" + rest, 1) == Some(([field], rest)) <==> Free(field, Pipe())
  {
    var s := field + "|" + rest;
    if Free(field, Pipe()) {
      ParseField(field, rest, 1);
      assert [field] + [] == [field];
    } else {
      var i :| 0 <= i < |field| && Pipe()(field[i]);
      assert s[i] == field[i] && IndexOf(s, Pipe()) < |field|;
      assert ParseHeader(s, 1).value.0[0] == s[..IndexOf(s, Pipe())];
    }
  }

  // ---- the printer ----

  function Join(parts: seq<string>): string {
    if parts == [] then "" else if |parts| == 1 then parts[0] else Join(parts[..|parts| - 1]) + " " + parts[|parts| - 1]
  }

  lemma {:induction false} PrintPairsConcat(xs: seq<Pair>, ys: seq<Pair>)
    requires xs != [] && ys != []
    ensures PrintPairs(xs + ys) == PrintPairs(xs) + " " + PrintPairs(ys)
  {
    if |xs| == 1 {
      assert (xs + ys)[1..] == ys;
    } else {
      PrintPairsConcat(xs[1..], ys);
      assert (xs + ys)[1..] == xs[1..] + ys;
    }
  }

  /** One more part: `printed` is what has been joined so far. */
  lemma JoinSnoc(parts: seq<string>, ps: seq<Pair>, more: seq<Pair>)
    requires Join(parts) == PrintPairs(ps) && (parts == [] <==> ps == []) && more != []
    ensures Join(parts + [PrintPairs(more)]) == PrintPairs(ps + more)
  {
    if parts == [] {
      assert ps + more == more;
    } else {
      PrintPairsConcat(ps, more);
      assert (parts + [PrintPairs(more)])[..|parts|] == parts;
    }
  }

  method AddLabelled(parts: seq<string>, entry: Entry, n: string, name: string, ghost ps: seq<Pair>)
    returns (r: seq<string>)
    requires Join(parts) == PrintPairs(ps) && (parts == [] <==> ps == [])
    ensures var qs := ps + Labelled(entry, n, name); Join(r) == PrintPairs(qs) && (r == [] <==> qs == [])
  {
    r := parts;
    if entry.Value? {
      var part := "cs" + n + "Label=" + name + " cs" + n + "=" + SanitizeExt(entry.text);
      ghost var more := Labelled(entry, n, name);
      assert more[1..] == [more[1]];
      assert part == PrintPair(more[0]) + " " + PrintPair(more[1]) == PrintPairs(more);
      JoinSnoc(parts, ps, more);
      r := r + [part];
    } else {
      assert ps + [] == ps;
    }
  }

  method AddPlain(parts: seq<string>, entry: Entry, key: string, ghost ps: seq<Pair>) returns (r: seq<string>)
    requires Join(parts) == PrintPairs(ps) && (parts == [] <==> ps == [])
    ensures var qs := ps + Plain(entry, key); Join(r) == PrintPairs(qs) && (r == [] <==> qs == [])
  {
    r := parts;
    if entry.Value? {
      var part := key + "=" + SanitizeExt(entry.text);
      JoinSnoc(parts, ps, Plain(entry, key));
      r := r + [part];
    } else {
      assert ps + [] == ps;
    }
  }

  method ToCef(e: Event, title: string -> string) returns (line: string)
    ensures line == PrintLine(Line(Header(e, title), Extension(e)))
    ensures ParseLine(line) == Some(Line(Header(e, title), Extension(e)))
  {
    var parts := [];
    ghost var ps: seq<Pair> := [];
    parts := AddLabelled(parts, e.agentId, "1", "agent_id", ps);
    ps := ps + Labelled(e.agentId, "1", "agent_id");
    parts := AddLabelled(parts, e.tenantId, "2", "tenant_id", ps);
    ps := ps + Labelled(e.tenantId, "2", "tenant_id");
    parts := AddPlain(parts, e.destIp, "dst", ps);
    ps := ps + Plain(e.destIp, "dst");
    parts := AddPlain(parts, e.destPort, "dpt", ps);
    ps := ps + Plain(e.destPort, "dpt");
    parts := AddPlain(parts, Message(e), "msg", ps);
    ps := ps + Plain(Message(e), "msg");
    parts := AddLabelled(parts, e.attackClass, "3", "attack_class", ps);
    ps := ps + Labelled(e.attackClass, "3", "attack_class");
    assert ps == Extension(e);
    line := PrintHeader(Header(e, title)) + Join(parts);
    ToCefRoundTrip(e, title);
  }
}
