/** Which entry of an event a reader of its CEF line finds where, and in what shape. */
module CefFields {
  import opened Cef
  import opened Options

  // ---- what the sanitizers do to each character ----

  /** At most `n` characters, the first ones, each of '=', backslash and line breaks an underscore. */
  predicate Underscored(r: string, s: string, n: nat) {
    && |r| == (if |s| <= n then |s| else n)
    && forall i :: 0 <= i < |r| ==>
         r[i] == if s[i] == '=' || s[i] == '\\' || s[i] == '\n' || s[i] == '\r' then '_' else s[i]
  }

  /** `k` is `s` without its pipes and backslashes. */
  predicate Stripped(k: string, s: string) {
    if s == "" then k == ""
    else
      var c := s[|s| - 1];
      if c == '|' || c == '\\' then Stripped(k, s[..|s| - 1])
      else k != "" && k[|k| - 1] == c && Stripped(k[..|k| - 1], s[..|s| - 1])
  }

  /** `r` is `s` without its pipes and backslashes, the first 63 characters of that. */
  ghost predicate HeaderField(r: string, s: string) {
    exists k :: Stripped(k, s) && r == if |k| <= 63 then k else k[..63]
  }

  lemma {:induction false} KeptIsStripped(s: string)
    ensures Stripped(Kept(s), s)
  {
    if s != "" { KeptIsStripped(s[..|s| - 1]); }
  }

  lemma SanitizersAre(s: string)
    ensures Underscored(SanitizeExt(s), s, 1024)
    ensures HeaderField(SanitizeHeader(s), s)
  {
    KeptIsStripped(s);
  }

  // ---- the header ----

  /** 10, 8, 5, 3 and 1 for critical, high, medium, low and everything else. */
  predicate SeverityNumber(x: string, s: string) {
    && (s == "critical" ==> x == "10") && (s == "high" ==> x == "8") && (s == "medium" ==> x == "5")
    && (s == "low" ==> x == "3")
    && (s != "critical" && s != "high" && s != "medium" && s != "low" ==> x == "1")
  }

  /** The rule's name, else the event's type, else "unknown". */
  predicate SignatureOf(s: string, e: Event) {
    match e.ruleName
    case Some(name) => s == name
    case None => match e.eventType case Some(kind) => s == kind case None => s == "unknown"
  }

  predicate Words(t: string, s: string) {
    |t| == |s| && forall i :: 0 <= i < |s| ==> t[i] == if s[i] == '_' then ' ' else s[i]
  }

  /** The seven header fields: the signature, its title and the severity are the event's. */
  lemma HeaderFields(e: Event, title: string -> string) returns (signature: string, words: string)
    ensures SignatureOf(signature, e) && Words(words, signature)
    ensures var h := Header(e, title);
            && h[..4] == ["CEF:0", "Phantex", "Phantex", "1.0"]
            && HeaderField(h[4], signature) && HeaderField(h[5], title(words)) && SeverityNumber(h[6], e.severity)
  {
    signature, words := RuleName(e), Spaced(RuleName(e));
    SanitizersAre(signature);
    SanitizersAre(title(words));
  }

  // ---- the extension ----

  /** One pair with the entry's text made fit, or none if the entry has no text. */
  predicate Told(ps: seq<Pair>, e: Entry, key: string) {
    match e
    case Value(text) => |ps| == 1 && ps[0].key == key && Underscored(ps[0].value, text, 1024)
    case _ => ps == []
  }

  /** The same behind a pair that says what it is. */
  predicate ToldAs(ps: seq<Pair>, e: Entry, mark: string, name: string, key: string) {
    match e
    case Value(_) => |ps| == 2 && ps[0] == Pair(mark, name) && Told(ps[1..], e, key)
    case _ => ps == []
  }

  /** The message, or the description of an event without one. */
  function SaysOf(e: Event): Entry {
    match e.message
    case Missing => e.description
    case m => m
  }

  lemma MessageTold(e: Event)
    ensures Told(Plain(Message(e), "msg"), SaysOf(e), "msg")
  {
    if SaysOf(e).Value? {
      SanitizedFacts(SaysOf(e).text);
      SanitizersAre(SaysOf(e).text);
    }
  }

  lemma PlainTold(e: Entry, key: string)
    ensures Told(Plain(e, key), e, key)
  {
    if e.Value? { SanitizersAre(e.text); }
  }

  lemma LabelledTold(e: Entry, n: string, name: string, mark: string, key: string)
    requires mark == "cs" + n + "Label" && key == "cs" + n
    ensures ToldAs(Labelled(e, n, name), e, mark, name, key)
  {
    if e.Value? { SanitizersAre(e.text); }
  }

  datatype Groups = Groups(agent: seq<Pair>, tenant: seq<Pair>, ip: seq<Pair>, port: seq<Pair>,
                           message: seq<Pair>, attack: seq<Pair>)

  function Joined(g: Groups): seq<Pair> {
    g.agent + g.tenant + g.ip + g.port + g.message + g.attack
  }

  /** Each entry under its own key, with its label. */
  predicate AllTold(g: Groups, e: Event) {
    && ToldAs(g.agent, e.agentId, "cs1Label", "agent_id", "cs1")
    && ToldAs(g.tenant, e.tenantId, "cs2Label", "tenant_id", "cs2")
    && Told(g.ip, e.destIp, "dst") && Told(g.port, e.destPort, "dpt") && Told(g.message, SaysOf(e), "msg")
    && ToldAs(g.attack, e.attackClass, "cs3Label", "attack_class", "cs3")
  }

  lemma ExtensionTold(e: Event) returns (g: Groups)
    ensures Extension(e) == Joined(g) && AllTold(g, e)
  {
    g := Groups(Labelled(e.agentId, "1", "agent_id"), Labelled(e.tenantId, "2", "tenant_id"), Plain(e.destIp, "dst"),
                Plain(e.destPort, "dpt"), Plain(Message(e), "msg"), Labelled(e.attackClass, "3", "attack_class"));
    assert ToldAs(g.agent, e.agentId, "cs1Label", "agent_id", "cs1") by {
      LabelledTold(e.agentId, "1", "agent_id", "cs1Label", "cs1");
    }
    assert ToldAs(g.tenant, e.tenantId, "cs2Label", "tenant_id", "cs2") by {
      LabelledTold(e.tenantId, "2", "tenant_id", "cs2Label", "cs2");
    }
    assert ToldAs(g.attack, e.attackClass, "cs3Label", "attack_class", "cs3") by {
      LabelledTold(e.attackClass, "3", "attack_class", "cs3Label", "cs3");
    }
    PlainTold(e.destIp, "dst");
    PlainTold(e.destPort, "dpt");
    MessageTold(e);
  }

  /** Reading back the line of an event, each entry is found under its own key, with its
      label, in this order, and nothing else is there. */
  lemma ReadBack(e: Event, title: string -> string) returns (g: Groups)
    ensures ParseLine(PrintLine(Line(Header(e, title), Extension(e)))) == Some(Line(Header(e, title), Joined(g)))
    ensures AllTold(g, e)
  {
    g := ExtensionTold(e);
    ToCefRoundTrip(e, title);
  }
}
