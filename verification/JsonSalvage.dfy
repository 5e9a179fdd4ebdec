/** The JSON salvage scanners of the dialogue parser (`preclean`, `extract_json_array`), over JSON text (RFC 8259). */
module JsonSalvage {
  import opened Wrappers

  /** Where the scanner stands: outside strings, inside one, or after a backslash in one. */
  datatype Lex = Outside | Inside | Escaped

  function Next(st: Lex, c: char): Lex {
    match st
    case Outside => if c == '"' then Inside else Outside
    case Inside => if c == '\\' then Escaped else if c == '"' then Outside else Inside
    case Escaped => Inside
  }

  predicate IsAsciiWhitespace(c: char) {
    c == ' ' || c == '\t' || c == '\n' || c == '\r' || c == '\U{C}'
  }

  predicate IsCloser(c: char) {
    c == ']' || c == '}'
  }

  /** The next character that is not whitespace closes an array or object. */
  predicate Closes(s: string) {
    s != "" && if IsAsciiWhitespace(s[0]) then Closes(s[1..]) else IsCloser(s[0])
  }

  // ----- preclean -----

  /** The text without the commas, outside strings, that directly precede a closer. */
  function Clean(s: string, st: Lex): string {
    if s == "" then ""
    else if st.Outside? && s[0] == ',' && Closes(s[1..]) then Clean(s[1..], st)
    else [s[0]] + Clean(s[1..], Next(st, s[0]))
  }

  method FindCloser(s: string, from: nat) returns (closes: bool)
    requires from <= |s|
    ensures closes == Closes(s[from..])
  {
    var j := from;
    while j < |s| && IsAsciiWhitespace(s[j])
      invariant from <= j <= |s|
      invariant Closes(s[j..]) == Closes(s[from..])
    {
      assert s[j..][1..] == s[j + 1..];
      j := j + 1;
    }
    closes := j < |s| && IsCloser(s[j]);
  }

  lemma SliceSnoc(s: string, i: nat, rest: string)
    requires i < |s|
    ensures s[..i] + ([s[i]] + rest) == s[..i + 1] + rest
  {
  }

  /** First pass: whether any comma is to go. */
  method NeedsCleaning(s: string) returns (needs: bool)
    ensures !needs ==> Clean(s, Outside) == s
  {
    var st, i := Outside, 0;
    while i < |s|
      invariant 0 <= i <= |s|
      invariant Clean(s, Outside) == s[..i] + Clean(s[i..], st)
    {
      assert s[i..][1..] == s[i + 1..];
      SliceSnoc(s, i, Clean(s[i + 1..], Next(st, s[i])));
      if st.Outside? && s[i] == ',' {
        var closes := FindCloser(s, i + 1);
        if closes {
          return true;
        }
      }
      st := Next(st, s[i]);
      i := i + 1;
    }
    needs := false;
  }

  /** Removes trailing commas, returning the text itself when there are none. */
  method Preclean(s: string) returns (out: string)
    ensures out == Clean(s, Outside)
  {
    var needs := NeedsCleaning(s);
    if !needs {
      return s;
    }
    out := "";
    var st, i := Outside, 0;
    while i < |s|
      invariant 0 <= i <= |s|
      invariant out + Clean(s[i..], st) == Clean(s, Outside)
    {
      assert s[i..][1..] == s[i + 1..];
      var drops := false;
      if st.Outside? && s[i] == ',' {
        drops := FindCloser(s, i + 1);
      }
      if !drops {
        out := out + [s[i]];
        st := Next(st, s[i]);
      }
      i := i + 1;
    }
  }

  // ----- extract_json_array -----

  function SatDec(n: nat): nat {
    if n == 0 then 0 else n - 1
  }

  function BracketDepth(st: Lex, c: char, n: nat): nat {
    if !st.Outside? then n else if c == '[' then n + 1 else if c == ']' then SatDec(n) else n
  }

  function BraceDepth(st: Lex, c: char, n: nat): nat {
    if !st.Outside? then n else if c == '{' then n + 1 else if c == '}' then SatDec(n) else n
  }

  predicate Stops(st: Lex, c: char, brackets: nat, braces: nat) {
    st.Outside? && c == ']' && SatDec(brackets) == 0 && braces == 0
  }

  /** How many characters the walk takes to the `]` that brings both depths to zero. */
  function Walk(s: string, st: Lex, brackets: nat, braces: nat): Option<nat> {
    if s == "" then None
    else if Stops(st, s[0], brackets, braces) then Some(1)
    else Longer(Walk(s[1..], Next(st, s[0]), BracketDepth(st, s[0], brackets), BraceDepth(st, s[0], braces)), 1)
  }

  function Longer(r: Option<nat>, n: nat): Option<nat> {
    if r.Some? then Some(r.value + n) else None
  }

  function FirstBracket(s: string): Option<nat> {
    if s == "" then None else if s[0] == '[' then Some(0) else Longer(FirstBracket(s[1..]), 1)
  }

  lemma {:induction false} WalkFits(s: string, st: Lex, brackets: nat, braces: nat)
    ensures var r := Walk(s, st, brackets, braces); r.Some? ==> 0 < r.value <= |s|
  {
    if s != "" {
      WalkFits(s[1..], Next(st, s[0]), BracketDepth(st, s[0], brackets), BraceDepth(st, s[0], braces));
    }
  }

  lemma {:induction false} BracketFits(s: string)
    ensures var r := FirstBracket(s); r.Some? ==> r.value < |s| && s[r.value] == '['
  {
    if s != "" {
      BracketFits(s[1..]);
    }
  }

  /** The first balanced array of the text. */
  function ExtractSpec(s: string): Option<string> {
    match FirstBracket(s)
    case None => None
    case Some(start) =>
      BracketFits(s);
      match Walk(s[start..], Outside, 0, 0)
      case None => None
      case Some(n) => WalkFits(s[start..], Outside, 0, 0); Some(s[start..start + n])
  }

  method FindBracket(s: string) returns (start: Option<nat>)
    ensures start == FirstBracket(s)
  {
    var i := 0;
    while i < |s| && s[i] != '['
      invariant 0 <= i <= |s|
      invariant FirstBracket(s) == Longer(FirstBracket(s[i..]), i)
    {
      assert s[i..][1..] == s[i + 1..];
      i := i + 1;
    }
    return if i < |s| then Some(i) else None;
  }

  /** The string-aware walk from an opening bracket, counting brackets and braces down no further than zero. */
  method WalkFrom(s: string) returns (n: Option<nat>)
    ensures n == Walk(s, Outside, 0, 0)
  {
    var st, brackets, braces := Outside, 0, 0;
    var i := 0;
    while i < |s|
      invariant 0 <= i <= |s|
      invariant Walk(s, Outside, 0, 0) == Longer(Walk(s[i..], st, brackets, braces), i)
    {
      var c := s[i];
      assert s[i..][1..] == s[i + 1..];
      if Stops(st, c, brackets, braces) {
        return Some(i + 1);
      }
      st, brackets, braces := Next(st, c), BracketDepth(st, c, brackets), BraceDepth(st, c, braces);
      i := i + 1;
    }
    return None;
  }

  method ExtractJsonArray(s: string) returns (r: Option<string>)
    ensures r == ExtractSpec(s)
  {
    var start := FindBracket(s);
    if start.None? {
      return None;
    }
    BracketFits(s);
    var n := WalkFrom(s[start.value..]);
    if n.None? {
      return None;
    }
    WalkFits(s[start.value..], Outside, 0, 0);
    return Some(s[start.value..start.value + n.value]);
  }
}
