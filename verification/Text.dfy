/** Searching and splitting strings at characters that satisfy a predicate, as the
    parsers of schedules, of CEF lines and of tool names do: the first such place,
    and all the pieces between such places, empty ones included. */
module Text {

  function IndexOf(s: string, p: char -> bool): (i: nat)
    ensures i <= |s|
    ensures forall j :: 0 <= j < i ==> !p(s[j])
    ensures i < |s| ==> p(s[i])
  {
    if s == "" then 0 else if p(s[0]) then 0 else 1 + IndexOf(s[1..], p)
  }

  function Split(s: string, p: char -> bool): (parts: seq<string>)
    ensures |parts| > 0
    decreases |s|
  {
    var i := IndexOf(s, p);
    if i == |s| then [s] else [s[..i]] + Split(s[i + 1..], p)
  }

  lemma SplitAt(s: string, p: char -> bool, i: nat)
    requires i < |s| && p(s[i]) && forall j :: 0 <= j < i ==> !p(s[j])
    ensures Split(s, p) == [s[..i]] + Split(s[i + 1..], p)
  {
  }

  lemma SplitNot(s: string, p: char -> bool)
    requires forall c :: c in s ==> !p(c)
    ensures Split(s, p) == [s]
  {
  }
}
