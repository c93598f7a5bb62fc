/** The placeholder pattern of the router, `{name}` or `{name:spec}` with ASCII identifiers, and
    what registration and URL building do with its matches. */
module Placeholders {

  predicate IdentStart(c: char) { 'a' <= c <= 'z' || 'A' <= c <= 'Z' || c == '_' }

  predicate WordChar(c: char) { IdentStart(c) || '0' <= c <= '9' }

  /** The length of the run of word characters at the front. */
  function WordRun(s: string): (n: nat)
    ensures n <= |s|
  {
    if s != "" && WordChar(s[0]) then 1 + WordRun(s[1..]) else 0
  }

  /** The length of an identifier at the front, or 0. */
  function IdentLen(s: string): (n: nat)
    ensures n <= |s|
  {
    if s != "" && IdentStart(s[0]) then WordRun(s) else 0
  }

  /** The length of a placeholder at the front, or 0. An identifier ends where a colon or a
      brace follows, so there is at most one match. */
  function MatchLen(s: string): (n: nat)
    ensures n <= |s|
  {
    if s == "" || s[0] != '{' then 0
    else
      var name := IdentLen(s[1..]);
      if name == 0 then 0
      else
        var rest := s[1 + name..];
        if rest == "" then 0
        else if rest[0] == '}' then name + 2
        else if rest[0] != ':' then 0
        else
          var spec := IdentLen(rest[1..]);
          if spec == 0 || |rest| <= 1 + spec || rest[1 + spec] != '}' then 0 else name + spec + 3
  }

  /** Group 1 of a match. */
  function NameIn(s: string): (name: string)
    requires MatchLen(s) > 0
  {
    s[1..1 + IdentLen(s[1..])]
  }

  /** Group 2 of a match, `str` when it is absent. */
  function SpecIn(s: string): (spec: string)
    requires MatchLen(s) > 0
  {
    var rest := s[1 + IdentLen(s[1..])..];
    if rest[0] == '}' then "str" else rest[1..1 + IdentLen(rest[1..])]
  }

  /** How far one step of the search moves: over a placeholder, or over one character. */
  function Skip(s: string): (n: nat)
    requires s != ""
    ensures 0 < n <= |s|
  {
    if MatchLen(s) > 0 then MatchLen(s) else 1
  }

  function SpecHere(s: string): (specs: seq<string>) { if MatchLen(s) > 0 then [SpecIn(s)] else [] }

  /** The converter specs of all placeholders, left to right. */
  function SpecsIn(s: string): (specs: seq<string>)
    decreases |s|
  {
    if s == "" then [] else SpecHere(s) + SpecsIn(s[Skip(s)..])
  }

  function TextHere(s: string): (text: string)
    requires s != ""
  {
    if MatchLen(s) > 0 then "" else [s[0]]
  }

  /** `_param_pattern.sub('', s)`: the text outside the placeholders. */
  function Strip(s: string): (text: string)
    decreases |s|
  {
    if s == "" then "" else TextHere(s) + Strip(s[Skip(s)..])
  }

  function NamesHere(s: string): (names: set<string>) { if MatchLen(s) > 0 then {NameIn(s)} else {} }

  function NamesIn(s: string): (names: set<string>)
    decreases |s|
  {
    if s == "" then {} else NamesHere(s) + NamesIn(s[Skip(s)..])
  }

  /** What substitution writes there; it is only used with every name present. */
  function Head(s: string, texts: map<string, string>): (text: string)
    requires s != ""
  {
    if MatchLen(s) == 0 then [s[0]] else if NameIn(s) in texts then texts[NameIn(s)] else ""
  }

  /** `_param_pattern.sub` with the rendered parameters. */
  function Substitute(s: string, texts: map<string, string>): (url: string)
    decreases |s|
  {
    if s == "" then "" else Head(s, texts) + Substitute(s[Skip(s)..], texts)
  }
}
