/** Finding the token of a request: bearer credentials first, then a named cookie. */
module TokenExtraction {
  import opened Wrappers

  /** A header value is readable as text or not. */
  datatype HeaderValue = Text(text: string) | Opaque

  datatype Headers = Headers(authorization: Option<HeaderValue>, cookie: Option<HeaderValue>)

  const BEARER := "Bearer "

  function StripBearer(s: string): Option<string> {
    if |s| >= |BEARER| && s[..|BEARER|] == BEARER then Some(s[|BEARER|..]) else None
  }

  /** Whitespace among the characters a readable header may hold. */
  predicate IsSpace(c: char) {
    c == ' ' || '\t' <= c <= '\r'
  }

  function TrimStart(s: string): string {
    if s != "" && IsSpace(s[0]) then TrimStart(s[1..]) else s
  }

  function TrimEnd(s: string): string {
    if s != "" && IsSpace(s[|s| - 1]) then TrimEnd(s[..|s| - 1]) else s
  }

  /** The pieces between the separators; always at least one. */
  function SplitOn(s: string, c: char): (r: seq<string>)
    ensures |r| > 0
    decreases |s|
  {
    if s == "" then [""]
    else if s[0] == c then [""] + SplitOn(s[1..], c)
    else
      var rest := SplitOn(s[1..], c);
      [[s[0]] + rest[0]] + rest[1..]
  }

  /** What stands before and after the first `c`. */
  function SplitOnce(s: string, c: char): Option<(string, string)> {
    if s == "" then None
    else if s[0] == c then Some(("", s[1..]))
    else match SplitOnce(s[1..], c)
      case None => None
      case Some((before, after)) => Some(([s[0]] + before, after))
  }

  /** The value of one piece, if it is a pair with the name looked for. */
  function ValueOf(piece: string, name: string): Option<string> {
    match SplitOnce(TrimEnd(TrimStart(piece)), '=')
    case None => None
    case Some((n, v)) => if n == name then Some(v) else None
  }

  function FindValue(pieces: seq<string>, name: string): Option<string> {
    if pieces == [] then None
    else if ValueOf(pieces[0], name).Some? then ValueOf(pieces[0], name)
    else FindValue(pieces[1..], name)
  }

  function BearerToken(headers: Headers): Option<string> {
    if headers.authorization.Some? && headers.authorization.value.Text?
    then StripBearer(headers.authorization.value.text)
    else None
  }

  lemma StripUndoesBearer(t: string)
    ensures StripBearer("Bearer " + t) == Some(t)
  {
    assert ("Bearer " + t)[..7] == BEARER && ("Bearer " + t)[7..] == t;
  }

  /** A bearer token is there exactly when the header is readable and starts with the prefix. */
  lemma BearerExactlyWhen(headers: Headers)
    ensures BearerToken(headers).Some? <==> exists t :: headers.authorization == Some(Text("Bearer " + t))
    ensures forall t :: headers.authorization == Some(Text("Bearer " + t)) ==> BearerToken(headers) == Some(t)
  {
    if BearerToken(headers).Some? {
      var s := headers.authorization.value.text;
      assert s == "Bearer " + s[7..];
    }
    forall t | headers.authorization == Some(Text("Bearer " + t)) ensures BearerToken(headers) == Some(t) {
      StripUndoesBearer(t);
    }
  }

  function ExtractToken(headers: Headers, cookieName: Option<string>): Option<string> {
    if BearerToken(headers).Some? then BearerToken(headers)
    else if cookieName.None? || headers.cookie.None? || headers.cookie.value.Opaque? then None
    else FindValue(SplitOn(headers.cookie.value.text, ';'), cookieName.value)
  }

  /** Without a bearer credential there is no token unless a cookie name is set and the cookie header readable. */
  lemma NoTokenWithoutCookie(headers: Headers, cookieName: Option<string>)
    requires forall t :: headers.authorization != Some(Text("Bearer " + t))
    requires cookieName == None || headers.cookie == None || headers.cookie == Some(Opaque)
    ensures ExtractToken(headers, cookieName) == None
  {
    BearerExactlyWhen(headers);
  }

  // ---- printing cookies --------------------------------------------------------------------------

  function RenderPair(p: (string, string)): string {
    p.0 + "=" + p.1
  }

  /** A cookie header: pairs separated by a semicolon and a space. */
  function Render(pairs: seq<(string, string)>): string {
    if pairs == [] then ""
    else if |pairs| == 1 then RenderPair(pairs[0])
    else RenderPair(pairs[0]) + "; " + Render(pairs[1..])
  }

  function Stored(pairs: seq<(string, string)>, name: string): Option<string> {
    if pairs == [] then None
    else if pairs[0].0 == name then Some(pairs[0].1)
    else Stored(pairs[1..], name)
  }

  /** Blanks and tabs, or any other whitespace. */
  predicate Blank(s: string) {
    forall i :: 0 <= i < |s| ==> s[i] in {' ', '\t', '\n', '\r', 11 as char, 12 as char}
  }

  /** Names without `;`, `=` and leading space; values without `;` and trailing space. */
  predicate Printable(p: (string, string)) {
    && ';' !in p.0 && '=' !in p.0 && (p.0 != "" ==> !IsSpace(p.0[0]))
    && ';' !in p.1 && (p.1 != "" ==> !IsSpace(p.1[|p.1| - 1]))
  }

  lemma {:induction false} SplitOncePair(name: string, value: string)
    requires '=' !in name
    ensures SplitOnce(name + "=" + value, '=') == Some((name, value))
  {
    if name == "" {
      assert (name + "=" + value)[1..] == value;
    } else {
      SplitOncePair(name[1..], value);
      assert (name + "=" + value)[1..] == name[1..] + "=" + value;
      assert name == [name[0]] + name[1..];
    }
  }

  lemma {:induction false} TrimStartSkips(lead: string, s: string)
    requires Blank(lead) && (s != "" ==> !IsSpace(s[0]))
    ensures TrimStart(lead + s) == s
  {
    if lead == "" {
      assert lead + s == s;
    } else {
      TrimStartSkips(lead[1..], s);
      assert (lead + s)[1..] == lead[1..] + s;
    }
  }

  lemma {:induction false} TrimEndSkips(s: string, trail: string)
    requires Blank(trail) && (s != "" ==> !IsSpace(s[|s| - 1]))
    ensures TrimEnd(s + trail) == s
    decreases |trail|
  {
    if trail == "" {
      assert s + trail == s;
    } else {
      TrimEndSkips(s, trail[..|trail| - 1]);
      assert (s + trail)[..|s + trail| - 1] == s + trail[..|trail| - 1];
    }
  }

  /** A printed pair is found under its name and no other, with any blanks around it. */
  lemma ValueOfPair(lead: string, p: (string, string), trail: string, name: string)
    requires Blank(lead) && Blank(trail) && Printable(p)
    ensures ValueOf(lead + RenderPair(p) + trail, name) == if p.0 == name then Some(p.1) else None
  {
    var s := RenderPair(p);
    assert s[|s| - 1] == if p.1 == "" then '=' else p.1[|p.1| - 1];
    assert lead + s + trail == lead + (s + trail);
    TrimStartSkips(lead, s + trail);
    TrimEndSkips(s, trail);
    SplitOncePair(p.0, p.1);
  }

  lemma {:induction false} SplitOnTakes(a: string, c: char, rest: string)
    requires c !in a
    ensures SplitOn(a + [c] + rest, c) == [a] + SplitOn(rest, c)
  {
    if a == "" {
      assert (a + [c] + rest)[1..] == rest;
    } else {
      SplitOnTakes(a[1..], c, rest);
      assert (a + [c] + rest)[1..] == a[1..] + [c] + rest;
      assert a == [a[0]] + a[1..];
    }
  }

  lemma {:induction false} SplitOnLast(a: string, c: char)
    requires c !in a
    ensures SplitOn(a, c) == [a]
  {
    if a == "" {
    } else {
      SplitOnLast(a[1..], c);
      assert a == [a[0]] + a[1..];
    }
  }

  lemma FindInNothing(lead: string, name: string)
    requires lead == "" || lead == " "
    ensures FindValue(SplitOn(lead + Render([]), ';'), name) == None
  {
    assert lead + Render([]) == lead;
    SplitOnLast(lead, ';');
    assert lead == " " ==> lead[1..] == "" && TrimStart(lead) == "";
    assert ValueOf(lead, name) == None;
    assert FindValue([lead], name) == FindValue([lead][1..], name);
  }

  /** The first pair is a piece of its own; the next one has a space in front. */
  lemma PieceInFront(lead: string, pairs: seq<(string, string)>)
    requires lead == "" || lead == " "
    requires |pairs| > 1 && Printable(pairs[0])
    ensures SplitOn(lead + Render(pairs), ';') ==
            [lead + RenderPair(pairs[0])] + SplitOn(" " + Render(pairs[1..]), ';')
  {
    var piece, rest := lead + RenderPair(pairs[0]), " " + Render(pairs[1..]);
    assert ';' !in piece;
    assert lead + Render(pairs) == piece + [';'] + rest;
    hide SplitOn, RenderPair, Render;
    SplitOnTakes(piece, ';', rest);
  }

  lemma {:induction false} FindInRendered(lead: string, pairs: seq<(string, string)>, name: string)
    requires lead == "" || lead == " "
    requires forall i :: 0 <= i < |pairs| ==> Printable(pairs[i])
    ensures FindValue(SplitOn(lead + Render(pairs), ';'), name) == Stored(pairs, name)
    decreases |pairs|
  {
    if pairs == [] {
      FindInNothing(lead, name);
    } else {
      var piece := lead + RenderPair(pairs[0]);
      ValueOfPair(lead, pairs[0], "", name);
      assert piece + "" == piece;
      if |pairs| == 1 {
        SplitOnLast(piece, ';');
        assert [piece][1..] == [] && pairs[1..] == [];
      } else {
        var rest := " " + Render(pairs[1..]);
        FindInRendered(" ", pairs[1..], name);
        PieceInFront(lead, pairs);
        hide SplitOn, ValueOf, Render, RenderPair, Printable;
        assert ([piece] + SplitOn(rest, ';'))[1..] == SplitOn(rest, ';');
      }
    }
  }

  /**
   * Extraction undoes printing. A bearer credential wins; without a usable one, and with a cookie
   * name configured, the token is the first value printed under that name, if there is one.
   */
  lemma ExtractUndoesRender(headers: Headers, pairs: seq<(string, string)>, cookieName: Option<string>)
    requires headers.cookie == Some(Text(Render(pairs)))
    requires forall i :: 0 <= i < |pairs| ==> Printable(pairs[i])
    ensures ExtractToken(headers, cookieName) ==
            if BearerToken(headers).Some? then BearerToken(headers)
            else if cookieName.None? then None
            else Stored(pairs, cookieName.value)
    ensures forall t :: headers.authorization == Some(Text("Bearer " + t)) ==>
              ExtractToken(headers, cookieName) == Some(t)
  {
    hide StripBearer, FindValue, SplitOn, Stored, Render, Printable;
    if cookieName.Some? {
      FindInRendered("", pairs, cookieName.value);
      assert "" + Render(pairs) == Render(pairs);
    }
    BearerExactlyWhen(headers);
  }

  /** A header that is there without being a bearer credential does not keep the cookie from being used. */
  lemma OtherCredentialsFallBack(value: HeaderValue, name: string, token: string)
    requires Printable((name, token)) && forall t :: value != Text("Bearer " + t)
    ensures ExtractToken(Headers(Some(value), Some(Text(RenderPair((name, token))))), Some(name)) == Some(token)
  {
    var headers := Headers(Some(value), Some(Text(RenderPair((name, token)))));
    var pairs := [(name, token)];
    BearerExactlyWhen(headers);
    assert Render(pairs) == RenderPair((name, token));
    ExtractUndoesRender(headers, pairs, Some(name));
    assert Stored(pairs, name) == Some(token);
  }
}
