/** What the salvage scanners do to printed JSON values, with any whitespace and any trailing commas. */
module JsonText {
  import opened Wrappers
  import opened Chars
  import opened JsonSalvage

  /** One character of a string literal, plain or escaped. */
  datatype StrUnit = Plain(c: char) | Esc(c: char)

  /** A JSON value with its layout. */
  datatype Json = Scalar(text: string) | Str(body: seq<StrUnit>) | Arr(parts: Parts) | Obj(parts: Parts)

  /** The parts of an array or object up to its closer: `End` is the whitespace before the closer, with a trailing comma
      and more whitespace when `comma` is given. */
  datatype Parts =
    | End(ws: string, comma: Option<string>)
    | Part(key: Option<Key>, pre: string, value: Json, post: string, rest: Parts)

  datatype Key = Key(before: string, body: seq<StrUnit>, after: string)

  // ----- well-formedness and printing -----

  ghost predicate IsWs(s: string) {
    forall i :: 0 <= i < |s| ==> s[i] == ' ' || s[i] == '\t' || s[i] == '\n' || s[i] == '\r'
  }

  predicate IsScalarChar(c: char) {
    c != '"' && c != ',' && c != '[' && c != ']' && c != '{' && c != '}' && !IsAsciiWhitespace(c)
  }

  ghost predicate ValidBody(body: seq<StrUnit>) {
    forall i :: 0 <= i < |body| ==> (body[i].Plain? ==> body[i].c != '"' && body[i].c != '\\')
  }

  ghost predicate Valid(v: Json) {
    match v
    case Scalar(s) => s != "" && forall i :: 0 <= i < |s| ==> IsScalarChar(s[i])
    case Str(body) => ValidBody(body)
    case Arr(parts) => ValidParts(parts, false)
    case Obj(parts) => ValidParts(parts, true)
  }

  ghost predicate ValidParts(ps: Parts, keyed: bool) {
    match ps
    case End(ws, comma) => IsWs(ws) && (comma.Some? ==> IsWs(comma.value))
    case Part(key, pre, v, post, rest) =>
      && (keyed <==> key.Some?) && (key.Some? ==> ValidKey(key.value))
      && IsWs(pre) && Valid(v) && IsWs(post) && ValidParts(rest, keyed)
  }

  ghost predicate ValidKey(k: Key) {
    IsWs(k.before) && ValidBody(k.body) && IsWs(k.after)
  }

  function PrintBody(body: seq<StrUnit>): string {
    if body == [] then "\""
    else PrintUnit(body[0]) + PrintBody(body[1..])
  }

  function PrintUnit(u: StrUnit): string {
    match u
    case Plain(c) => [c]
    case Esc(c) => ['\\', c]
  }

  function PrintKey(key: Option<Key>): string {
    match key
    case None => ""
    case Some(k) => k.before + ("\"" + PrintBody(k.body)) + k.after + ":"
  }

  function Print(v: Json): string {
    match v
    case Scalar(s) => s
    case Str(body) => "\"" + PrintBody(body)
    case Arr(parts) => "[" + PrintParts(parts) + "]"
    case Obj(parts) => "{" + PrintParts(parts) + "}"
  }

  function PrintParts(ps: Parts): string {
    match ps
    case End(ws, comma) => ws + (if comma.Some? then "," + comma.value else "")
    case Part(key, pre, v, post, rest) =>
      PrintKey(key) + pre + Print(v) + post + (if rest.Part? then "," else "") + PrintParts(rest)
  }

  /** The same value without its trailing commas. */
  function Tidy(v: Json): Json {
    match v
    case Scalar(_) => v
    case Str(_) => v
    case Arr(parts) => Arr(TidyParts(parts))
    case Obj(parts) => Obj(TidyParts(parts))
  }

  function TidyParts(ps: Parts): Parts {
    match ps
    case End(ws, comma) => End(ws + (if comma.Some? then comma.value else ""), None)
    case Part(key, pre, v, post, rest) => Part(key, pre, Tidy(v), post, TidyParts(rest))
  }

  ghost predicate IsTidy(v: Json) {
    Tidy(v) == v
  }

  // ----- scanning runs without commas, quotes or brackets -----

  /** No character of `x` means anything to a scanner outside strings. */
  ghost predicate IsInert(x: string) {
    forall i :: 0 <= i < |x| ==> x[i] != '"' && x[i] != ',' && x[i] != '[' && x[i] != ']' && x[i] != '{' && x[i] != '}'
  }

  lemma {:induction false} InertRun(x: string, rest: string, brackets: nat, braces: nat)
    requires IsInert(x)
    ensures Clean(x + rest, Outside) == x + Clean(rest, Outside)
    ensures Walk(x + rest, Outside, brackets, braces) == Longer(Walk(rest, Outside, brackets, braces), |x|)
  {
    if x == "" {
      assert x + rest == rest;
    } else {
      assert (x + rest)[1..] == x[1..] + rest && [x[0]] + x[1..] == x;
      InertRun(x[1..], rest, brackets, braces);
    }
  }

  /** Inside a literal the scanners take one character after another. */
  lemma InsideStep(c: char, st: Lex, rest: string, brackets: nat, braces: nat)
    requires !st.Outside?
    ensures Clean([c] + rest, st) == [c] + Clean(rest, Next(st, c))
    ensures Walk([c] + rest, st, brackets, braces) == Longer(Walk(rest, Next(st, c), brackets, braces), 1)
  {
    assert ([c] + rest)[1..] == rest;
  }

  lemma UnitRun(u: StrUnit, rest: string, brackets: nat, braces: nat)
    requires u.Plain? ==> u.c != '"' && u.c != '\\'
    ensures Clean(PrintUnit(u) + rest, Inside) == PrintUnit(u) + Clean(rest, Inside)
    ensures Walk(PrintUnit(u) + rest, Inside, brackets, braces)
      == Longer(Walk(rest, Inside, brackets, braces), |PrintUnit(u)|)
  {
    if u.Plain? {
      InsideStep(u.c, Inside, rest, brackets, braces);
    } else {
      InsideStep('\\', Inside, [u.c] + rest, brackets, braces);
      InsideStep(u.c, Escaped, rest, brackets, braces);
      assert PrintUnit(u) + rest == ['\\'] + ([u.c] + rest);
    }
  }

  lemma {:induction false} BodyRun(body: seq<StrUnit>, rest: string, brackets: nat, braces: nat)
    requires ValidBody(body)
    ensures Clean(PrintBody(body) + rest, Inside) == PrintBody(body) + Clean(rest, Outside)
    ensures Walk(PrintBody(body) + rest, Inside, brackets, braces)
      == Longer(Walk(rest, Outside, brackets, braces), |PrintBody(body)|)
    decreases |body|
  {
    if body == [] {
      InsideStep('"', Inside, rest, brackets, braces);
    } else {
      var tail := PrintBody(body[1..]);
      BodyRun(body[1..], rest, brackets, braces);
      UnitRun(body[0], tail + rest, brackets, braces);
      Regroup(PrintUnit(body[0]), tail, rest);
      Regroup(PrintUnit(body[0]), tail, Clean(rest, Outside));
    }
  }

  lemma StrRun(body: seq<StrUnit>, rest: string, brackets: nat, braces: nat)
    requires ValidBody(body)
    ensures Clean("\"" + PrintBody(body) + rest, Outside) == "\"" + PrintBody(body) + Clean(rest, Outside)
    ensures Walk("\"" + PrintBody(body) + rest, Outside, brackets, braces)
         == Longer(Walk(rest, Outside, brackets, braces), 1 + |PrintBody(body)|)
  {
    var s := "\"" + PrintBody(body) + rest;
    assert s[0] == '"' && s[1..] == PrintBody(body) + rest;
    BodyRun(body, rest, brackets, braces);
  }

  lemma {:induction false} WsCloses(ws: string, rest: string)
    requires IsWs(ws)
    ensures Closes(ws + rest) == Closes(rest)
  {
    if ws == "" {
      assert ws + rest == rest;
    } else {
      assert (ws + rest)[1..] == ws[1..] + rest;
      WsCloses(ws[1..], rest);
    }
  }

  // ----- preclean on printed values -----

  lemma WsInert(ws: string)
    requires IsWs(ws)
    ensures IsInert(ws)
  {
  }

  /** Cleaning turns `x` into `y` and goes on with the rest. */
  ghost predicate CleansTo(x: string, y: string, rest: string) {
    Clean(x + rest, Outside) == y + Clean(rest, Outside)
  }

  lemma CleanTwo(x: string, y: string, x': string, y': string, rest: string)
    requires CleansTo(x, y, x' + rest) && CleansTo(x', y', rest)
    ensures CleansTo(x + x', y + y', rest)
  {
    var out := Clean(rest, Outside);
    assert (x + x') + rest == x + (x' + rest);
    assert (y + y') + out == y + (y' + out);
  }

  lemma CleanInert(x: string, rest: string)
    requires IsInert(x)
    ensures CleansTo(x, x, rest)
  {
    InertRun(x, rest, 0, 0);
  }

  lemma KeyClean(key: Option<Key>, rest: string)
    requires key.Some? ==> ValidKey(key.value)
    ensures CleansTo(PrintKey(key), PrintKey(key), rest)
  {
    if key.Some? {
      var k := key.value;
      var lit := "\"" + PrintBody(k.body);
      CleanInert(":", rest);
      WsInert(k.after);
      CleanInert(k.after, ":" + rest);
      StrRun(k.body, k.after + (":" + rest), 0, 0);
      WsInert(k.before);
      CleanInert(k.before, lit + (k.after + (":" + rest)));
      CleanTwo(k.before, k.before, lit, lit, k.after + (":" + rest));
      CleanTwo(k.before + lit, k.before + lit, k.after, k.after, ":" + rest);
      CleanTwo(k.before + lit + k.after, k.before + lit + k.after, ":", ":", rest);
    } else {
      assert "" + rest == rest && "" + Clean(rest, Outside) == Clean(rest, Outside);
    }
  }

  /** A value or part after a comma starts with something other than a closer. */
  lemma ValueOpens(v: Json, rest: string)
    requires Valid(v)
    ensures Print(v) != "" && !IsAsciiWhitespace(Print(v)[0]) && !IsCloser(Print(v)[0])
    ensures !Closes(Print(v) + rest)
  {
    assert (Print(v) + rest)[0] == Print(v)[0];
  }

  lemma KeyOpens(k: Key, rest: string)
    requires ValidKey(k)
    ensures !Closes(PrintKey(Some(k)) + rest)
  {
    var after := "\"" + (PrintBody(k.body) + k.after + ":" + rest);
    WsCloses(k.before, after);
    assert after[0] == '"';
    assert PrintKey(Some(k)) + rest == k.before + after;
  }

  lemma PartOpens(ps: Parts, keyed: bool, rest: string)
    requires ps.Part? && ValidParts(ps, keyed)
    ensures !Closes(PrintParts(ps) + rest)
  {
    var comma := if ps.rest.Part? then "," else "";
    var t3 := ps.post + (comma + (PrintParts(ps.rest) + rest));
    var t1 := ps.pre + (Print(ps.value) + t3);
    Six(PrintKey(ps.key), ps.pre, Print(ps.value), ps.post, comma, PrintParts(ps.rest), rest);
    assert PrintParts(ps) + rest == PrintKey(ps.key) + t1;
    if ps.key.Some? {
      KeyOpens(ps.key.value, t1);
    } else {
      assert "" + t1 == t1;
      WsCloses(ps.pre, Print(ps.value) + t3);
      ValueOpens(ps.value, t3);
    }
  }

  lemma {:induction false} ValueClean(v: Json, rest: string)
    requires Valid(v)
    ensures Clean(Print(v) + rest, Outside) == Print(Tidy(v)) + Clean(rest, Outside)
    decreases v, 1
  {
    match v {
      case Scalar(s) => InertRun(s, rest, 0, 0);
      case Str(body) => StrRun(body, rest, 0, 0);
      case Arr(parts) =>
        PartsClean(parts, false, ']', rest);
        Bracketed('[', PrintParts(parts), ']', rest, PrintParts(TidyParts(parts)));
      case Obj(parts) =>
        PartsClean(parts, true, '}', rest);
        Bracketed('{', PrintParts(parts), '}', rest, PrintParts(TidyParts(parts)));
    }
  }

  lemma Bracketed(open: char, inner: string, close: char, rest: string, tidy: string)
    requires open == '[' || open == '{'
    requires Clean(inner + ([close] + rest), Outside) == tidy + ([close] + Clean(rest, Outside))
    ensures Clean([open] + inner + [close] + rest, Outside) == [open] + tidy + [close] + Clean(rest, Outside)
  {
    var s := [open] + (inner + ([close] + rest));
    assert [open] + inner + [close] + rest == s;
    assert s[1..] == inner + ([close] + rest);
  }

  lemma EndClean(ws: string, comma: Option<string>, close: char, rest: string)
    requires IsWs(ws) && (comma.Some? ==> IsWs(comma.value)) && IsCloser(close)
    ensures CleansTo(PrintParts(End(ws, comma)), PrintParts(TidyParts(End(ws, comma))), [close] + rest)
    ensures Clean([close] + rest, Outside) == [close] + Clean(rest, Outside)
  {
    WsInert(ws);
    var t := [close] + rest;
    assert t[1..] == rest;
    if comma.Some? {
      var w := comma.value;
      WsInert(w);
      CleanInert(w, t);
      DroppedComma(w, t);
      CleanInert(ws, ("," + w) + t);
      CleanTwo(ws, ws, "," + w, w, t);
      assert PrintParts(TidyParts(End(ws, comma))) == ws + w;
    } else {
      CleanInert(ws, t);
      assert PrintParts(End(ws, comma)) == ws && PrintParts(TidyParts(End(ws, comma))) == ws;
    }
  }

  lemma DroppedComma(w: string, t: string)
    requires IsWs(w) && Closes(t) && CleansTo(w, w, t)
    ensures CleansTo("," + w, w, t)
  {
    WsCloses(w, t);
    assert ("," + w) + t == "," + (w + t) && ("," + (w + t))[1..] == w + t;
  }

  lemma CommaClean(rest: string)
    requires !Closes(rest)
    ensures Clean("," + rest, Outside) == "," + Clean(rest, Outside)
  {
    assert ("," + rest)[1..] == rest;
  }

  lemma {:induction false} PartsClean(ps: Parts, keyed: bool, close: char, rest: string)
    requires ValidParts(ps, keyed) && IsCloser(close)
    ensures Clean(PrintParts(ps) + ([close] + rest), Outside)
      == PrintParts(TidyParts(ps)) + ([close] + Clean(rest, Outside))
    decreases ps, 0
  {
    match ps {
      case End(ws, comma) => EndClean(ws, comma, close, rest);
      case Part(key, pre, v, post, more) =>
        var comma := if more.Part? then "," else "";
        var out := [close] + Clean(rest, Outside);
        var t5 := PrintParts(more) + ([close] + rest);
        PartsClean(more, keyed, close, rest);
        assert Clean(comma + t5, Outside) == comma + Clean(t5, Outside) by {
          if more.Part? {
            PartOpens(more, keyed, [close] + rest);
            CommaClean(t5);
          } else {
            assert "" + t5 == t5 && "" + Clean(t5, Outside) == Clean(t5, Outside);
          }
        }
        WsInert(post);
        InertRun(post, comma + t5, 0, 0);
        ValueClean(v, post + (comma + t5));
        WsInert(pre);
        InertRun(pre, Print(v) + (post + (comma + t5)), 0, 0);
        KeyClean(key, pre + (Print(v) + (post + (comma + t5))));
        Six(PrintKey(key), pre, Print(v), post, comma, PrintParts(more), [close] + rest);
        Six(PrintKey(key), pre, Print(Tidy(v)), post, comma, PrintParts(TidyParts(more)), out);
    }
  }

  lemma Six(a: string, b: string, c: string, d: string, e: string, f: string, g: string)
    ensures (a + b + c + d + e + f) + g == a + (b + (c + (d + (e + (f + g)))))
  {
  }

  /** `preclean` turns a JSON text (any value between any whitespace, section 2 of RFC 8259), trailing commas
      before any of its closers, into the text of the same value without them; a text without trailing commas is
      left as it is. */
  lemma PrecleanPrinted(before: string, v: Json, after: string)
    requires Valid(v) && IsWs(before) && IsWs(after)
    ensures Clean(before + Print(v) + after, Outside) == before + Print(Tidy(v)) + after
    ensures IsTidy(v) ==> Clean(before + Print(v) + after, Outside) == before + Print(v) + after
  {
    WsInert(before);
    WsInert(after);
    CleanInert(after, "");
    assert after + "" == after;
    ValueClean(v, after);
    CleanInert(before, Print(v) + after);
    Regroup(before, Print(v), after);
    Regroup(before, Print(Tidy(v)), after);
  }

  // ----- extract_json_array on printed values -----

  /** One character that the walk does not stop at. */
  lemma CharWalk(x: char, rest: string, b: nat, c: nat)
    requires x != '"' && (x == ']' ==> b > 1)
    ensures Walk([x] + rest, Outside, b, c) == Longer(
      Walk(rest, Outside, if x == '[' then b + 1 else if x == ']' then b - 1 else b,
                          if x == '{' then c + 1 else if x == '}' then SatDec(c) else c), 1)
  {
    assert ([x] + rest)[1..] == rest;
  }

  /** The walk passes over `x` with the depths back where they were. */
  ghost predicate WalksOver(x: string, rest: string, b: nat, c: nat) {
    Walk(x + rest, Outside, b, c) == Longer(Walk(rest, Outside, b, c), |x|)
  }

  lemma WalkTwo(x: string, y: string, rest: string, b: nat, c: nat)
    requires WalksOver(x, y + rest, b, c) && WalksOver(y, rest, b, c)
    ensures WalksOver(x + y, rest, b, c)
  {
    assert (x + y) + rest == x + (y + rest);
  }

  lemma WalkArray(inner: string, rest: string, b: nat, c: nat)
    requires b >= 1 && WalksOver(inner, "]" + rest, b + 1, c)
    ensures WalksOver("[" + inner + "]", rest, b, c)
  {
    CharWalk(']', rest, b + 1, c);
    CharWalk('[', inner + ("]" + rest), b, c);
    assert ("[" + inner + "]") + rest == "[" + (inner + ("]" + rest));
  }

  lemma WalkObject(inner: string, rest: string, b: nat, c: nat)
    requires WalksOver(inner, "}" + rest, b, c + 1)
    ensures WalksOver("{" + inner + "}", rest, b, c)
  {
    CharWalk('}', rest, b, c + 1);
    CharWalk('{', inner + ("}" + rest), b, c);
    assert ("{" + inner + "}") + rest == "{" + (inner + ("}" + rest));
  }

  lemma WalkInert(x: string, rest: string, b: nat, c: nat)
    requires IsInert(x)
    ensures WalksOver(x, rest, b, c)
  {
    InertRun(x, rest, b, c);
  }

  lemma KeyWalk(key: Option<Key>, rest: string, b: nat, c: nat)
    requires key.Some? ==> ValidKey(key.value)
    ensures WalksOver(PrintKey(key), rest, b, c)
  {
    if key.Some? {
      var k := key.value;
      var lit := "\"" + PrintBody(k.body);
      WalkInert(":", rest, b, c);
      WsInert(k.after);
      WalkInert(k.after, ":" + rest, b, c);
      StrRun(k.body, k.after + (":" + rest), b, c);
      WsInert(k.before);
      WalkInert(k.before, lit + (k.after + (":" + rest)), b, c);
      WalkTwo(k.before, lit, k.after + (":" + rest), b, c);
      WalkTwo(k.before + lit, k.after, ":" + rest, b, c);
      WalkTwo(k.before + lit + k.after, ":", rest, b, c);
    } else {
      assert "" + rest == rest;
    }
  }

  lemma WalkComma(rest: string, b: nat, c: nat)
    ensures WalksOver(",", rest, b, c) && WalksOver("", rest, b, c)
  {
    CharWalk(',', rest, b, c);
    assert "" + rest == rest;
  }

  /** Inside an array, a printed value is walked over with the depths back where they were. */
  lemma {:induction false} ValueWalk(v: Json, rest: string, b: nat, c: nat)
    requires Valid(v) && b >= 1
    ensures WalksOver(Print(v), rest, b, c)
    decreases v, 1
  {
    match v {
      case Scalar(s) => InertRun(s, rest, b, c);
      case Str(body) => StrRun(body, rest, b, c);
      case Arr(parts) =>
        PartsWalk(parts, false, "]" + rest, b + 1, c);
        WalkArray(PrintParts(parts), rest, b, c);
      case Obj(parts) =>
        PartsWalk(parts, true, "}" + rest, b, c + 1);
        WalkObject(PrintParts(parts), rest, b, c);
    }
  }

  lemma {:induction false} PartsWalk(ps: Parts, keyed: bool, rest: string, b: nat, c: nat)
    requires ValidParts(ps, keyed) && b >= 1
    ensures WalksOver(PrintParts(ps), rest, b, c)
    decreases ps, 0
  {
    match ps {
      case End(ws, comma) =>
        EndWalk(ws, comma, rest, b, c);
      case Part(key, pre, v, post, more) =>
        var t5 := PrintParts(more) + rest;
        PartsWalk(more, keyed, rest, b, c);
        WalkComma(t5, b, c);
        var comma := if more.Part? then "," else "";
        ValueWalk(v, post + (comma + t5), b, c);
        PartWalk(key, pre, Print(v), post, comma, PrintParts(more), rest, b, c);
    }
  }

  lemma EndWalk(ws: string, comma: Option<string>, rest: string, b: nat, c: nat)
    requires IsWs(ws) && (comma.Some? ==> IsWs(comma.value))
    ensures WalksOver(PrintParts(End(ws, comma)), rest, b, c)
  {
    WsInert(ws);
    if comma.Some? {
      WsInert(comma.value);
      WalkInert(comma.value, rest, b, c);
      WalkComma(comma.value + rest, b, c);
      WalkTwo(",", comma.value, rest, b, c);
      WalkInert(ws, ("," + comma.value) + rest, b, c);
      WalkTwo(ws, "," + comma.value, rest, b, c);
    } else {
      WalkInert(ws, rest, b, c);
      assert PrintParts(End(ws, comma)) == ws;
    }
  }

  lemma PartWalk(key: Option<Key>, pre: string, value: string, post: string, comma: string, more: string,
                 rest: string, b: nat, c: nat)
    requires (key.Some? ==> ValidKey(key.value)) && IsWs(pre) && IsWs(post)
    requires WalksOver(value, post + (comma + (more + rest)), b, c)
    requires WalksOver(comma, more + rest, b, c) && WalksOver(more, rest, b, c)
    ensures WalksOver(PrintKey(key) + pre + value + post + comma + more, rest, b, c)
  {
    WsInert(pre);
    WsInert(post);
    var t4 := comma + more;
    var t3 := post + t4;
    var t2 := value + t3;
    var t1 := pre + t2;
    WalkTwo(comma, more, rest, b, c);
    WalkInert(post, t4 + rest, b, c);
    WalkTwo(post, t4, rest, b, c);
    assert post + (comma + (more + rest)) == t3 + rest;
    WalkTwo(value, t3, rest, b, c);
    WalkInert(pre, t2 + rest, b, c);
    WalkTwo(pre, t2, rest, b, c);
    KeyWalk(key, t1 + rest, b, c);
    WalkTwo(PrintKey(key), t1, rest, b, c);
    assert PrintKey(key) + t1 == PrintKey(key) + pre + value + post + comma + more;
  }

  lemma {:induction false} BracketAfter(prefix: string, rest: string)
    requires '[' !in prefix && rest != "" && rest[0] == '['
    ensures FirstBracket(prefix + rest) == Some(|prefix|)
  {
    if prefix == "" {
      assert prefix + rest == rest;
    } else {
      assert (prefix + rest)[1..] == prefix[1..] + rest;
      BracketAfter(prefix[1..], rest);
    }
  }

  /** From a text that holds a printed array after a prefix without `[`, exactly that array is extracted, whatever
      follows it. */
  lemma ExtractsPrintedArray(prefix: string, parts: Parts, suffix: string)
    requires '[' !in prefix && Valid(Arr(parts))
    ensures ExtractSpec(prefix + Print(Arr(parts)) + suffix) == Some(Print(Arr(parts)))
  {
    var printed := Print(Arr(parts));
    ArrayWalk(parts, suffix);
    BracketAfter(prefix, printed + suffix);
    Regroup(prefix, printed, suffix);
    var s := prefix + printed + suffix;
    assert s[|prefix|..] == printed + suffix && s[|prefix|..|prefix| + |printed|] == printed;
  }

  lemma ArrayWalk(parts: Parts, suffix: string)
    requires Valid(Arr(parts))
    ensures Walk(Print(Arr(parts)) + suffix, Outside, 0, 0) == Some(|Print(Arr(parts))|)
  {
    var inner, t := PrintParts(parts), "]" + suffix;
    assert Walk(t, Outside, 1, 0) == Some(1);
    PartsWalk(parts, false, t, 1, 0);
    CharWalk('[', inner + t, 0, 0);
    assert Print(Arr(parts)) + suffix == "[" + (inner + t);
  }

  // ----- preclean on any text -----

  /** The characters of the string literals, quotes included. */
  function Quoted(s: string, st: Lex): string {
    if s == "" then ""
    else (if st.Outside? && s[0] != '"' then "" else [s[0]]) + Quoted(s[1..], Next(st, s[0]))
  }

  /** On any text, valid JSON or not, every string literal survives unchanged. */
  lemma {:induction false} LiteralsSurvive(s: string, st: Lex)
    ensures Quoted(Clean(s, st), st) == Quoted(s, st)
  {
    if s != "" {
      if st.Outside? && s[0] == ',' && Closes(s[1..]) {
        LiteralsSurvive(s[1..], st);
      } else {
        LiteralsSurvive(s[1..], Next(st, s[0]));
        assert ([s[0]] + Clean(s[1..], Next(st, s[0])))[1..] == Clean(s[1..], Next(st, s[0]));
      }
    }
  }

  lemma {:induction false} CleanShrinks(s: string, st: Lex)
    ensures |Clean(s, st)| <= |s|
  {
    if s != "" {
      CleanShrinks(s[1..], st);
      CleanShrinks(s[1..], Next(st, s[0]));
    }
  }

  /** A comma comes next, and after it a closer. */
  predicate CommaCloses(s: string) {
    s != "" && if IsAsciiWhitespace(s[0]) then CommaCloses(s[1..]) else s[0] == ',' && Closes(s[1..])
  }

  /** Two commas in a row, outside strings, directly before a closer. */
  predicate Doubled(s: string, st: Lex) {
    s != "" && ((st.Outside? && s[0] == ',' && CommaCloses(s[1..])) || Doubled(s[1..], Next(st, s[0])))
  }

  /** Cleaning brings a closer next exactly where one was next already or one comma away. */
  lemma {:induction false} ClosesAfterClean(s: string)
    ensures Closes(Clean(s, Outside)) <==> Closes(s) || CommaCloses(s)
  {
    if s != "" {
      if s[0] == ',' && Closes(s[1..]) {
        ClosesAfterClean(s[1..]);
      } else {
        assert ([s[0]] + Clean(s[1..], Next(Outside, s[0])))[1..] == Clean(s[1..], Next(Outside, s[0]));
        if IsAsciiWhitespace(s[0]) {
          ClosesAfterClean(s[1..]);
        }
      }
    }
  }

  /** A second cleaning changes nothing if and only if the text has no doubled comma before a closer. */
  lemma {:induction false} IdempotentUnlessDoubled(s: string, st: Lex)
    ensures Clean(Clean(s, st), st) == Clean(s, st) <==> !Doubled(s, st)
  {
    if s != "" {
      var st' := Next(st, s[0]);
      if st.Outside? && s[0] == ',' && Closes(s[1..]) {
        IdempotentUnlessDoubled(s[1..], st);
        NotBoth(s[1..]);
      } else {
        var rest := Clean(s[1..], st');
        assert Clean(s, st) == [s[0]] + rest && ([s[0]] + rest)[1..] == rest;
        IdempotentUnlessDoubled(s[1..], st');
        CleanShrinks(rest, st');
        ClosesAfterClean(s[1..]);
        if st.Outside? && s[0] == ',' && CommaCloses(s[1..]) {
          assert |Clean([s[0]] + rest, st)| < |[s[0]] + rest|;
        } else {
          assert Clean([s[0]] + rest, st) == [s[0]] + Clean(rest, st');
          assert ([s[0]] + Clean(rest, st'))[1..] == Clean(rest, st');
        }
      }
    }
  }

  lemma {:induction false} NotBoth(s: string)
    ensures !(Closes(s) && CommaCloses(s))
  {
    if s != "" && IsAsciiWhitespace(s[0]) {
      NotBoth(s[1..]);
    }
  }

  lemma DoubledCommaExample()
    ensures Doubled("[1,,]", Outside)
    ensures Clean(Clean("[1,,]", Outside), Outside) != Clean("[1,,]", Outside)
  {
    var s := "[1,,]";
    assert s[1..] == "1,,]" && s[1..][1..] == ",,]" && s[1..][1..][1..] == ",]" && s[1..][1..][1..][1..] == "]";
    assert CommaCloses(",]") by {
      assert Closes("]");
    }
    assert Doubled(",,]", Outside);
    assert Doubled("1,,]", Outside);
    IdempotentUnlessDoubled(s, Outside);
  }
}
