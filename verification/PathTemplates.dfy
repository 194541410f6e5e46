/** The `{name}` placeholders of a path. */
module PathTemplates {
  import opened Sequences

  /** A path as written: plain text and placeholders, a placeholder possibly with leading stars. */
  datatype Segment = Text(text: string) | Placeholder(stars: nat, name: string)

  function Stars(n: nat): string {
    seq(n, _ => '*')
  }

  function RenderSegment(s: Segment): string {
    match s
    case Text(text) => text
    case Placeholder(stars, name) => "{" + Stars(stars) + name + "}"
  }

  function Render(path: seq<Segment>): string {
    if path == [] then "" else RenderSegment(path[0]) + Render(path[1..])
  }

  /** Text without an opening brace; names without a closing brace or a leading star. */
  predicate Plain(s: Segment) {
    match s
    case Text(text) => '{' !in text
    case Placeholder(_, name) => '}' !in name && (name != "" ==> name[0] != '*')
  }

  function Names(path: seq<Segment>): seq<string> {
    if path == [] then []
    else (if path[0].Placeholder? then [path[0].name] else []) + Names(path[1..])
  }

  function TrimStars(s: string): string {
    if s != "" && s[0] == '*' then TrimStars(s[1..]) else s
  }

  /** The index of the first `c`, or the length if there is none. */
  function Find(s: string, c: char): (n: nat)
    ensures n <= |s|
    ensures c !in s[..n]
    ensures n < |s| ==> s[n] == c
  {
    if s == "" || s[0] == c then 0
    else
      assert s[..1 + Find(s[1..], c)] == [s[0]] + s[1..][..Find(s[1..], c)];
      1 + Find(s[1..], c)
  }

  /** What the scan finds from here on. */
  function Scan(s: string): seq<string>
    decreases |s|
  {
    if s == "" then []
    else if s[0] == '{' && Find(s[1..], '}') < |s| - 1 then
      var len := Find(s[1..], '}');
      [TrimStars(s[1..1 + len])] + Scan(s[len + 2..])
    else Scan(s[1..])
  }

  /** The end of a placeholder that begins at `i`, if one does. */
  predicate PlaceholderAt(s: string, i: nat, len: nat) {
    i < |s| && s[i] == '{' && len == Find(s[i + 1..], '}') && len < |s| - i - 1
  }

  /** A placeholder in front is taken. */
  lemma ScanTakes(s: string, i: nat, len: nat, names: seq<string>)
    requires PlaceholderAt(s, i, len)
    ensures names + Scan(s[i..]) == names + [TrimStars(s[i + 1..i + 1 + len])] + Scan(s[i + len + 2..])
  {
    assert s[i..][1..] == s[i + 1..];
    assert s[i..][1..1 + len] == s[i + 1..i + 1 + len];
    assert s[i..][len + 2..] == s[i + len + 2..];
    hide Find;
    Assoc(names, [TrimStars(s[i + 1..i + 1 + len])], Scan(s[i + len + 2..]));
  }

  /** Any other character is skipped. */
  lemma ScanSkips(s: string, i: nat)
    requires i < |s| && !PlaceholderAt(s, i, Find(s[i + 1..], '}'))
    ensures Scan(s[i..]) == Scan(s[i + 1..])
  {
    assert s[i..][1..] == s[i + 1..];
  }

  method PathPlaceholders(pathLit: string) returns (names: seq<string>)
    ensures names == Scan(pathLit)
  {
    names := [];
    var i := 0;
    while i < |pathLit|
      invariant 0 <= i <= |pathLit|
      invariant names + Scan(pathLit[i..]) == Scan(pathLit)
    {
      hide Scan, Find, TrimStars;
      if pathLit[i] == '{' {
        var len := Find(pathLit[i + 1..], '}');
        if len < |pathLit| - i - 1 {
          ScanTakes(pathLit, i, len, names);
          names := names + [TrimStars(pathLit[i + 1..i + 1 + len])];
          i := i + len + 2;
          continue;
        }
      }
      ScanSkips(pathLit, i);
      i := i + 1;
    }
  }

  // ---- scanning undoes rendering ------------------------------------------------------------------

  lemma {:induction false} ScanSkipsText(text: string, rest: string)
    requires '{' !in text
    ensures Scan(text + rest) == Scan(rest)
  {
    if text == "" {
      assert text + rest == rest;
    } else {
      ScanSkipsText(text[1..], rest);
      assert (text + rest)[1..] == text[1..] + rest;
    }
  }

  lemma {:induction false} FindIsFirst(a: string, c: char, rest: string)
    requires c !in a
    ensures Find(a + [c] + rest, c) == |a|
  {
    if a == "" {
      assert a + [c] + rest == [c] + rest;
    } else {
      FindIsFirst(a[1..], c, rest);
      assert (a + [c] + rest)[1..] == a[1..] + [c] + rest;
    }
  }

  lemma {:induction false} TrimUndoesStars(n: nat, name: string)
    requires name != "" ==> name[0] != '*'
    ensures TrimStars(Stars(n) + name) == name
  {
    if n == 0 {
      assert Stars(n) + name == name;
    } else {
      TrimUndoesStars(n - 1, name);
      assert (Stars(n) + name)[1..] == Stars(n - 1) + name;
    }
  }

  lemma ScanTakesPlaceholder(stars: nat, name: string, rest: string)
    requires Plain(Placeholder(stars, name))
    ensures Scan("{" + Stars(stars) + name + "}" + rest) == [name] + Scan(rest)
  {
    var inner := Stars(stars) + name;
    var s := "{" + Stars(stars) + name + "}" + rest;
    assert s[1..] == inner + ['}'] + rest;
    FindIsFirst(inner, '}', rest);
    assert s[1..1 + |inner|] == inner;
    assert s[|inner| + 2..] == rest;
    TrimUndoesStars(stars, name);
  }

  /** The names come back in order, whatever text stands between the placeholders. */
  lemma {:induction false} ScanUndoesRender(path: seq<Segment>)
    requires forall i :: 0 <= i < |path| ==> Plain(path[i])
    ensures Scan(Render(path)) == Names(path)
  {
    if path == [] {
    } else {
      ScanUndoesRender(path[1..]);
      match path[0]
      case Text(text) =>
        ScanSkipsText(text, Render(path[1..]));
      case Placeholder(stars, name) =>
        ScanTakesPlaceholder(stars, name, Render(path[1..]));
        assert RenderSegment(path[0]) + Render(path[1..]) == "{" + Stars(stars) + name + "}" + Render(path[1..]);
    }
  }

  // ---- every path is a rendering --------------------------------------------------------------------

  function LeadingStars(s: string): nat {
    if s != "" && s[0] == '*' then 1 + LeadingStars(s[1..]) else 0
  }

  lemma {:induction false} StarsAndRest(s: string)
    ensures s == Stars(LeadingStars(s)) + TrimStars(s)
    ensures TrimStars(s) != "" ==> TrimStars(s)[0] != '*'
    ensures forall c :: c in TrimStars(s) ==> c in s
  {
    if s != "" && s[0] == '*' {
      StarsAndRest(s[1..]);
      assert s == [s[0]] + s[1..];
    }
  }

  /** The first placeholder of a string that has one. */
  lemma FirstPlaceholder(s: string, n: nat, len: nat) returns (ph: Segment)
    requires n < |s| && n == Find(s, '{') && len == Find(s[n + 1..], '}') && len < |s| - n - 1
    ensures ph.Placeholder? && Plain(ph) && '{' !in s[..n]
    ensures s == s[..n] + RenderSegment(ph) + s[n + len + 2..]
    ensures Scan(s) == [ph.name] + Scan(s[n + len + 2..])
  {
    var inner, after := s[n + 1..n + 1 + len], s[n + len + 2..];
    assert s[n + 1..][..len] == inner && s[n + 1..][len] == s[n + 1 + len];
    CutAt(s, n, len);
    StarsAndRest(inner);
    ph := Placeholder(LeadingStars(inner), TrimStars(inner));
    hide *;
    ScanFirst(s, n, inner, after, ph);
  }

  lemma ScanFirst(s: string, n: nat, inner: string, after: string, ph: Segment)
    requires n <= |s| && '{' !in s[..n] && s == s[..n] + ("{" + inner + "}" + after)
    requires ph.Placeholder? && Plain(ph) && inner == Stars(ph.stars) + ph.name
    ensures s == s[..n] + RenderSegment(ph) + after
    ensures Scan(s) == [ph.name] + Scan(after)
  {
    hide Scan, Stars, Find;
    var rendered := "{" + Stars(ph.stars) + ph.name + "}";
    assert rendered == "{" + inner + "}";
    ScanSkipsText(s[..n], rendered + after);
    ScanTakesPlaceholder(ph.stars, ph.name, after);
  }

  lemma CutAt(s: string, n: nat, len: nat)
    requires n + len + 1 < |s| && s[n] == '{' && s[n + 1 + len] == '}'
    ensures s == s[..n] + ("{" + s[n + 1..n + 1 + len] + "}" + s[n + len + 2..])
  {
  }

  lemma ConsOf(x: Segment, path: seq<Segment>)
    ensures Render([x] + path) == RenderSegment(x) + Render(path)
    ensures Names([x] + path) == (if x.Placeholder? then [x.name] else []) + Names(path)
  {
    assert ([x] + path)[1..] == path;
  }

  /** Text alone has no placeholder, and neither has a brace that never closes. */
  lemma NoPlaceholder(s: string)
    requires var n := Find(s, '{'); n == |s| || '}' !in s[n + 1..]
    ensures Scan(s) == []
    ensures '{' in s ==> '}' !in s[Find(s, '{')..]
  {
    hide Find;
    var n := Find(s, '{');
    if n == |s| {
      assert s[..n] == s && s + "" == s;
      ScanSkipsText(s, "");
    } else {
      assert s == s[..n] + s[n..];
      ScanSkipsText(s[..n], s[n..]);
      assert s[n..] == ['{'] + s[n + 1..];
      NothingCloses(s[n..]);
    }
  }

  /**
   * The scan is complete: any string is text and placeholders in some order, the last text
   * possibly with braces that never close, and the scan returns exactly the placeholders.
   */
  lemma {:induction false} EveryPathIsRendered(s: string) returns (path: seq<Segment>, tail: string)
    ensures s == Render(path) + tail && Scan(s) == Names(path)
    ensures forall i :: 0 <= i < |path| ==> Plain(path[i])
    ensures '{' in tail ==> '}' !in tail[Find(tail, '{')..]
    decreases |s|
  {
    var n := Find(s, '{');
    if n == |s| || Find(s[n + 1..], '}') == |s| - n - 1 {
      assert n < |s| ==> s[n + 1..][..|s| - n - 1] == s[n + 1..];
      NoPlaceholder(s);
      path, tail := [], s;
    } else {
      hide Find, Scan, Render, Names, Plain, RenderSegment;
      var len := Find(s[n + 1..], '}');
      var ph := FirstPlaceholder(s, n, len);
      var rest;
      rest, tail := EveryPathIsRendered(s[n + len + 2..]);
      path := Prepend(s[..n], ph, rest);
      hide *;
      Assoc(s[..n] + RenderSegment(ph), Render(rest), tail);
    }
  }

  lemma Prepend(text: string, ph: Segment, rest: seq<Segment>) returns (path: seq<Segment>)
    requires '{' !in text && ph.Placeholder? && Plain(ph) && forall i :: 0 <= i < |rest| ==> Plain(rest[i])
    ensures Render(path) == text + RenderSegment(ph) + Render(rest) && Names(path) == [ph.name] + Names(rest)
    ensures forall i :: 0 <= i < |path| ==> Plain(path[i])
  {
    ConsOf(ph, rest);
    ConsOf(Text(text), [ph] + rest);
    path := [Text(text)] + ([ph] + rest);
    assert text + (RenderSegment(ph) + Render(rest)) == text + RenderSegment(ph) + Render(rest);
  }

  lemma {:induction false} NothingCloses(s: string)
    requires '}' !in s
    ensures Scan(s) == []
  {
    if s == "" {
    } else {
      NothingCloses(s[1..]);
    }
  }
}
