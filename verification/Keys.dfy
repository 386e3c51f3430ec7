// Names that React.Children traversal gives to the nodes it visits
// (packages/react/children-helper.js).  A name is '.' followed by one segment
// per nesting level, separated by ':'.  A segment is either an escaped explicit
// key, '$' + key with '=' written "=0" and ':' written "=2", or an index in
// base 36.
//
// The point of the module is that names can be read back: DecodePath inverts
// PathName exactly, so a name determines its list of segments.
module Keys {
  import opened Wrappers

  datatype Segment = Key(text: string) | Index(position: nat)

  // ---------- explicit keys ----------

  function EscapeChar(c: char): string {
    if c == '=' then "=0" else if c == ':' then "=2" else [c]
  }

  function EscapeChars(key: string): string {
    if key == "" then "" else EscapeChar(key[0]) + EscapeChars(key[1..])
  }

  function EscapeKey(key: string): string {
    "$" + EscapeChars(key)
  }

  function Unescape(s: string): Option<string> {
    if s == "" then Some("")
    else if s[0] == ':' then None
    else if s[0] == '=' then
      if |s| == 1 || (s[1] != '0' && s[1] != '2') then None
      else match Unescape(s[2..])
        case None => None
        case Some(rest) => Some([if s[1] == '0' then '=' else ':'] + rest)
    else match Unescape(s[1..])
      case None => None
      case Some(rest) => Some([s[0]] + rest)
  }

  lemma {:induction false} UnescapeInverts(key: string)
    ensures Unescape(EscapeChars(key)) == Some(key)
  {
    if key != "" {
      UnescapeInverts(key[1..]);
      var s, e := EscapeChars(key), EscapeChar(key[0]);
      assert s[|e|..] == EscapeChars(key[1..]);
      assert key == [key[0]] + key[1..];
    }
  }

  lemma {:induction false} UnescapeExact(s: string, key: string)
    requires Unescape(s) == Some(key)
    ensures EscapeChars(key) == s
  {
    if s == "" {
    } else if s[0] == '=' {
      var rest := Unescape(s[2..]).value;
      UnescapeExact(s[2..], rest);
      assert key[1..] == rest;
      assert s == s[..2] + s[2..];
    } else {
      var rest := Unescape(s[1..]).value;
      UnescapeExact(s[1..], rest);
      assert key[1..] == rest;
      assert s == s[..1] + s[1..];
    }
  }

  lemma ConcatAssociates<T>(a: seq<T>, b: seq<T>, c: seq<T>)
    ensures a + (b + c) == (a + b) + c
  {
  }

  lemma {:induction false} EscapeConcat(a: string, b: string)
    ensures EscapeChars(a + b) == EscapeChars(a) + EscapeChars(b)
  {
    if a == "" {
      assert a + b == b;
    } else {
      var t, step := a[1..], EscapeChar(a[0]);
      EscapeConcat(t, b);
      assert (a + b)[1..] == t + b;
      ConcatAssociates(step, EscapeChars(t), EscapeChars(b));
    }
  }

  lemma {:induction false} EscapedHasNoColon(key: string)
    ensures ':' !in EscapeChars(key)
  {
    if key != "" { EscapedHasNoColon(key[1..]); }
  }

  // ---------- indexes ----------

  function Digit(d: nat): char
    requires d < 36
  {
    if d < 10 then '0' + d as char else 'a' + (d - 10) as char
  }

  function DigitValue(c: char): Option<nat> {
    if '0' <= c <= '9' then Some((c - '0') as nat)
    else if 'a' <= c <= 'z' then Some(10 + (c - 'a') as nat)
    else None
  }

  // Number.prototype.toString(36)
  function Base36(n: nat): string {
    if n < 36 then [Digit(n)] else Base36(n / 36) + [Digit(n % 36)]
  }

  // Reads a base-36 numeral and refuses leading zeros, which toString(36) never writes.
  function ParseBase36(s: string): Option<nat> {
    if s == "" then None
    else match DigitValue(s[|s| - 1])
      case None => None
      case Some(low) =>
        if |s| == 1 then Some(low)
        else match ParseBase36(s[..|s| - 1])
          case None => None
          case Some(high) => if high == 0 then None else Some(36 * high + low)
  }

  lemma DigitRoundTrip(d: nat)
    requires d < 36
    ensures DigitValue(Digit(d)) == Some(d)
  {
    assert d < 10 ==> '0' <= Digit(d) <= '9';
  }

  lemma DigitExact(c: char)
    ensures DigitValue(c).Some? ==> DigitValue(c).value < 36 && Digit(DigitValue(c).value) == c
  {
    assert '0' <= c <= '9' ==> (c - '0') as nat < 10;
  }

  lemma {:induction false} Base36RoundTrip(n: nat)
    ensures ParseBase36(Base36(n)) == Some(n)
  {
    DigitRoundTrip(n % 36);
    Base36Digits(n);
    if n >= 36 {
      var high, low := n / 36, n % 36;
      assert n == 36 * high + low && 0 < high < n;
      Base36RoundTrip(high);
      Base36Digits(high);
      var s := Base36(n);
      assert s[..|s| - 1] == Base36(high) && s[|s| - 1] == Digit(low);
    }
  }

  lemma {:induction false} Base36Exact(s: string, n: nat)
    requires ParseBase36(s) == Some(n)
    ensures Base36(n) == s
  {
    DigitExact(s[|s| - 1]);
    if |s| > 1 {
      var high := ParseBase36(s[..|s| - 1]).value;
      Base36Exact(s[..|s| - 1], high);
      assert n / 36 == high;
      assert s == s[..|s| - 1] + [s[|s| - 1]];
    }
  }

  lemma {:induction false} Base36Digits(n: nat)
    ensures Base36(n) != ""
    ensures forall c :: c in Base36(n) ==> DigitValue(c).Some?
  {
    DigitRoundTrip(n % 36);
    if n >= 36 { Base36Digits(n / 36); }
  }

  // ---------- segments ----------

  function SegmentText(segment: Segment): string {
    match segment
    case Key(text) => EscapeKey(text)
    case Index(position) => Base36(position)
  }

  function DecodeSegment(s: string): Option<Segment> {
    if s != "" && s[0] == '$' then
      match Unescape(s[1..])
      case None => None
      case Some(text) => Some(Key(text))
    else
      match ParseBase36(s)
      case None => None
      case Some(position) => Some(Index(position))
  }

  lemma DecodeSegmentText(segment: Segment)
    ensures DecodeSegment(SegmentText(segment)) == Some(segment)
    ensures SegmentText(segment) != "" && ':' !in SegmentText(segment)
  {
    match segment
    case Key(text) =>
      UnescapeInverts(text);
      EscapedHasNoColon(text);
      assert EscapeKey(text)[1..] == EscapeChars(text);
    case Index(position) =>
      Base36RoundTrip(position);
      Base36Digits(position);
      assert SegmentText(segment)[0] in SegmentText(segment);
  }

  lemma DecodeSegmentExact(s: string, segment: Segment)
    requires DecodeSegment(s) == Some(segment)
    ensures SegmentText(segment) == s
  {
    if s != "" && s[0] == '$' {
      UnescapeExact(s[1..], segment.text);
    } else {
      Base36Exact(s, segment.position);
    }
  }

  // ---------- names ----------

  // The name of the node reached through `path`; the root has the empty name.
  function PathName(path: seq<Segment>): string
    decreases |path|, 0
  {
    if path == [] then ""
    else NamePrefix(path[..|path| - 1]) + SegmentText(path[|path| - 1])
  }

  // What the traversal puts in front of a child's own segment.
  function NamePrefix(path: seq<Segment>): string
    decreases |path|, 1
  {
    if path == [] then "." else PathName(path) + ":"
  }

  lemma PathNameAppend(path: seq<Segment>, segment: Segment)
    ensures PathName(path + [segment]) == NamePrefix(path) + SegmentText(segment)
  {
    assert (path + [segment])[..|path|] == path;
  }

  function SplitColons(s: string): seq<string> {
    if s == "" then [""]
    else if s[0] == ':' then [""] + SplitColons(s[1..])
    else
      var rest := SplitColons(s[1..]);
      if rest == [] then [[s[0]]] else [[s[0]] + rest[0]] + rest[1..]
  }

  function DecodeTokens(tokens: seq<string>): Option<seq<Segment>> {
    if tokens == [] then Some([])
    else match DecodeTokens(tokens[..|tokens| - 1])
      case None => None
      case Some(path) =>
        match DecodeSegment(tokens[|tokens| - 1])
        case None => None
        case Some(segment) => Some(path + [segment])
  }

  function DecodePath(name: string): Option<seq<Segment>> {
    if name == "" then Some([])
    else if name[0] != '.' then None
    else DecodeTokens(SplitColons(name[1..]))
  }

  lemma {:induction false} SplitNonEmpty(s: string)
    ensures SplitColons(s) != []
    ensures ':' !in s ==> SplitColons(s) == [s]
  {
    if s != "" {
      SplitNonEmpty(s[1..]);
      assert s == [s[0]] + s[1..];
    }
  }

  // Two token lists joined by gluing the last token of one to the first of the other.
  function Glue(u: seq<string>, v: seq<string>): seq<string>
    requires u != [] && v != []
  {
    u[..|u| - 1] + [u[|u| - 1] + v[0]] + v[1..]
  }

  lemma GlueFront(c: string, u: seq<string>, v: seq<string>)
    requires u != [] && v != []
    ensures Glue([c] + u, v) == [c] + Glue(u, v)
    ensures Glue([c + u[0]] + u[1..], v) == [c + Glue(u, v)[0]] + Glue(u, v)[1..]
  {
    assert ([c] + u)[..|u|] == [c] + u[..|u| - 1];
    var w := [c + u[0]] + u[1..];
    if |u| == 1 {
      assert w[..0] == u[..0] == [];
      assert (c + u[0]) + v[0] == c + (u[0] + v[0]);
    } else {
      assert w[..|u| - 1] == [c + u[0]] + u[1..|u| - 1];
      assert Glue(u, v)[0] == u[0];
    }
  }

  lemma {:induction false} SplitConcat(x: string, y: string)
    ensures SplitColons(x) != [] && SplitColons(y) != []
    ensures SplitColons(x + y) == Glue(SplitColons(x), SplitColons(y))
  {
    SplitNonEmpty(x);
    SplitNonEmpty(y);
    if x == "" {
      var v := SplitColons(y);
      assert x + y == y && "" + v[0] == v[0] && v == [v[0]] + v[1..];
      assert [""][..0] == [];
    } else {
      SplitConcat(x[1..], y);
      SplitNonEmpty(x[1..]);
      assert (x + y)[1..] == x[1..] + y;
      var c := if x[0] == ':' then "" else [x[0]];
      GlueFront(c, SplitColons(x[1..]), SplitColons(y));
    }
  }

  lemma SplitAtColon(a: string, b: string)
    ensures SplitColons(a + ":" + b) == SplitColons(a) + SplitColons(b)
  {
    SplitConcat(a, ":" + b);
    var u, v := SplitColons(a), SplitColons(b);
    assert (":" + b)[1..] == b;
    assert SplitColons(":" + b) == [""] + v;
    hide SplitColons;
    ConcatAssociates(a, ":", b);
    assert u[|u| - 1] + "" == u[|u| - 1];
    assert Glue(u, [""] + v) == u + v;
  }

  lemma SplitAppend(name: string, text: string)
    requires name != "" && ':' !in text
    ensures SplitColons((name + ":" + text)[1..]) == SplitColons(name[1..]) + [text]
  {
    assert (name + ":" + text)[1..] == name[1..] + ":" + text;
    SplitAtColon(name[1..], text);
    SplitNonEmpty(text);
  }

  lemma {:induction false} PathNameShape(path: seq<Segment>)
    requires path != []
    ensures |PathName(path)| >= 2 && PathName(path)[0] == '.'
  {
    var last := path[|path| - 1];
    DecodeSegmentText(last);
    if |path| > 1 { PathNameShape(path[..|path| - 1]); }
  }

  function Texts(path: seq<Segment>): seq<string> {
    seq(|path|, i requires 0 <= i < |path| => SegmentText(path[i]))
  }

  lemma {:induction false} SplitPathName(path: seq<Segment>)
    requires path != []
    ensures PathName(path) != "" && SplitColons(PathName(path)[1..]) == Texts(path)
  {
    var init, text := path[..|path| - 1], SegmentText(path[|path| - 1]);
    PathNameShape(path);
    DecodeSegmentText(path[|path| - 1]);
    assert Texts(path) == Texts(init) + [text];
    if init == [] {
      assert PathName(path)[1..] == text;
      SplitNonEmpty(text);
    } else {
      SplitPathName(init);
      SplitAppend(PathName(init), text);
    }
  }

  lemma {:induction false} DecodeTexts(path: seq<Segment>)
    ensures DecodeTokens(Texts(path)) == Some(path)
  {
    if path != [] {
      var init, last := path[..|path| - 1], path[|path| - 1];
      DecodeTexts(init);
      DecodeSegmentText(last);
      assert Texts(path)[..|path| - 1] == Texts(init);
      assert path == init + [last];
    }
  }

  // Reading back the name of any path gives that path.
  lemma DecodePathName(path: seq<Segment>)
    ensures DecodePath(PathName(path)) == Some(path)
  {
    if path != [] {
      PathNameShape(path);
      SplitPathName(path);
      DecodeTexts(path);
    }
  }

  function JoinColons(tokens: seq<string>): string
    requires tokens != []
  {
    if |tokens| == 1 then tokens[0]
    else JoinColons(tokens[..|tokens| - 1]) + ":" + tokens[|tokens| - 1]
  }

  lemma {:induction false} JoinFront(c: string, tokens: seq<string>)
    requires tokens != []
    ensures JoinColons([c + tokens[0]] + tokens[1..]) == c + JoinColons(tokens)
    ensures JoinColons([c] + tokens) == c + ":" + JoinColons(tokens)
  {
    var n := |tokens|;
    var t := [c + tokens[0]] + tokens[1..];
    var u := [c] + tokens;
    assert u[..n] == [c] + tokens[..n - 1];
    if n == 1 {
      assert u[..n] == [c];
      assert JoinColons(u[..n]) == c;
    } else {
      var init := tokens[..n - 1];
      JoinFront(c, init);
      assert t[..n - 1] == [c + init[0]] + init[1..];
    }
  }

  lemma {:induction false} JoinSplit(s: string)
    ensures SplitColons(s) != [] && JoinColons(SplitColons(s)) == s
  {
    SplitNonEmpty(s);
    if s != "" {
      JoinSplit(s[1..]);
      SplitNonEmpty(s[1..]);
      var rest := SplitColons(s[1..]);
      JoinFront([s[0]], rest);
      JoinFront("", rest);
      assert s == [s[0]] + s[1..];
    }
  }

  lemma {:induction false} DecodeTokensExact(tokens: seq<string>, path: seq<Segment>)
    requires DecodeTokens(tokens) == Some(path)
    ensures |path| == |tokens|
    ensures forall i :: 0 <= i < |path| ==> SegmentText(path[i]) == tokens[i]
  {
    var n := |tokens|;
    if n > 0 {
      var init, last := DecodeTokens(tokens[..n - 1]).value, DecodeSegment(tokens[n - 1]).value;
      assert path == init + [last];
      DecodeTokensExact(tokens[..n - 1], init);
      DecodeSegmentExact(tokens[n - 1], last);
    }
  }

  lemma {:induction false} PathNameJoins(path: seq<Segment>)
    requires path != []
    ensures PathName(path) == "." + JoinColons(Texts(path))
  {
    var init := path[..|path| - 1];
    assert Texts(path)[..|path| - 1] == Texts(init);
    if init != [] { PathNameJoins(init); }
  }

  // DecodePath accepts exactly the names of paths, and returns the path named.
  lemma DecodePathExact(name: string, path: seq<Segment>)
    ensures DecodePath(name) == Some(path) <==> name == PathName(path)
  {
    DecodePathName(path);
    if DecodePath(name) == Some(path) && name != "" {
      var tokens := SplitColons(name[1..]);
      JoinSplit(name[1..]);
      DecodeTokensExact(tokens, path);
      assert Texts(path) == tokens;
      PathNameJoins(path);
      assert name == "." + name[1..];
    }
  }

  // Two nodes have the same name only when they sit at the same path.
  lemma PathNameInjective(p: seq<Segment>, q: seq<Segment>)
    requires PathName(p) == PathName(q)
    ensures p == q
  {
    DecodePathName(p);
    DecodePathName(q);
  }
}
