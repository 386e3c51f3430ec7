// Keys of elements that a React.Children.map callback returns inside an array
// (packages/react/children-helper.js:1106-1121).  Such an element gets the name of
// the outer leaf with every run of '/' made one longer, then one '/', then its
// own name inside the returned array.
//
// The separating '/' is meant to be the only slash run of length one, so that the
// outer and the inner name can be told apart.  That is true unless an outer name
// ends in '/'; NestedKeysCollide says exactly when it fails.
module Prefixes {
  import opened Wrappers
  import opened Keys

  // s.replace(/\/+/g, '$&/')
  function DoubleRuns(s: string): string {
    if s == "" then "" else RunStep(s) + DoubleRuns(s[1..])
  }

  // What the first character of s becomes: the last slash of a run is doubled.
  function RunStep(s: string): string
    requires s != ""
  {
    if s[0] != '/' || (|s| > 1 && s[1] == '/') then [s[0]] else "//"
  }

  function NestedKey(outer: string, inner: string): string {
    DoubleRuns(outer) + "/" + inner
  }

  predicate EndsInSlash(s: string) {
    s != "" && s[|s| - 1] == '/'
  }

  // The names the traversal gives to leaves: never the empty path.
  predicate IsLeafName(s: string) {
    DecodePath(s).Some? && DecodePath(s).value != []
  }

  // Names of nodes that carry an explicit key of their own.
  predicate NamesKeyedNode(s: string) {
    IsLeafName(s) && var path := DecodePath(s).value; path[|path| - 1].Key?
  }

  // `longer` continues `shorter`, which ends in '/', with one more '/' and the
  // name of a keyed node.
  predicate Clash(shorter: string, longer: string) {
    EndsInSlash(shorter) && shorter + "/" <= longer && NamesKeyedNode(longer[|shorter| + 1..])
  }

  // ---------- slash runs ----------

  lemma {:induction false} DoubleRunsConcat(a: string, b: string)
    requires !EndsInSlash(a) || b == "" || b[0] != '/'
    ensures DoubleRuns(a + b) == DoubleRuns(a) + DoubleRuns(b)
  {
    if a == "" {
      assert a + b == b;
    } else {
      var t, step := a[1..], RunStep(a);
      DoubleRunsConcat(t, b);
      assert (a + b)[1..] == t + b;
      assert RunStep(a + b) == step;
      ConcatAssociates(step, DoubleRuns(t), DoubleRuns(b));
    }
  }

  lemma {:induction false} NoSlashUnchanged(s: string)
    requires '/' !in s
    ensures DoubleRuns(s) == s
  {
    if s != "" { NoSlashUnchanged(s[1..]); }
  }

  // What an escaped name starts with.
  lemma {:induction false} DoubleRunsHead(s: string)
    requires s != ""
    ensures DoubleRuns(s) != "" && DoubleRuns(s)[0] == s[0]
    ensures s == "/" ==> DoubleRuns(s) == "//"
    ensures s[0] == '/' ==> |DoubleRuns(s)| >= 2 && DoubleRuns(s)[1] == '/'
    ensures s[0] == '/' && |s| > 1 ==> |DoubleRuns(s)| > 2 && DoubleRuns(s)[2] == s[1]
    ensures s[0] == '/' && |s| > 1 && s[1] != '/' ==> DoubleRuns(s)[2..] == DoubleRuns(s[1..])
    ensures !(s[0] == '/' && (|s| == 1 || s[1] != '/')) ==> DoubleRuns(s)[1..] == DoubleRuns(s[1..])
  {
    if |s| > 1 { DoubleRunsHead(s[1..]); }
  }

  // If two nested keys coincide, the outer names are equal or the longer one
  // overlaps the other's inner name.
  lemma {:induction false} Align(o1: string, i1: string, o2: string, i2: string)
    requires i1 != "" && i1[0] == '.' && i2 != "" && i2[0] == '.'
    requires |o1| <= |o2| && NestedKey(o1, i1) == NestedKey(o2, i2)
    ensures (o1 == o2 && i1 == i2)
         || (EndsInSlash(o1) && o1 + "/" <= o2 && |o2| > |o1| + 1 && o2[|o1| + 1] == '.'
             && i1 == NestedKey(o2[|o1| + 1..], i2))
    decreases |o1|
  {
    var s := NestedKey(o1, i1);
    if o2 == "" {
      assert s[1..] == i1 && s[1..] == i2;
    } else if o1 == "" {
      NoEmptyOuter(i1, o2, i2);
    } else if o1 == "/" {
      RunEnds(o1, i1, o2, i2);
    } else {
      NestedKeyStep(o1, i1);
      NestedKeyStep(o2, i2);
      hide DoubleRuns, NestedKey;
      var t1, t2 := o1[1..], o2[1..];
      assert |o1| > 1 && o1[0] == '/' ==> o2[1] == o1[1];
      Align(t1, i1, t2, i2);
      assert o1 == [o1[0]] + t1 && o2 == [o2[0]] + t2;
      if o1 != o2 { assert o2[|o1| + 1..] == t2[|t1| + 1..]; }
    }
  }

  // A nested key starts with what the first character of the outer name becomes.
  lemma NestedKeyStep(outer: string, inner: string)
    requires outer != ""
    ensures var s, step := NestedKey(outer, inner), RunStep(outer);
            |step| <= |s| && s[..|step|] == step && s[|step|..] == NestedKey(outer[1..], inner)
    ensures outer[0] == '/' ==> NestedKey(outer, inner)[1] == '/'
    ensures outer[0] == '/' && |outer| > 1 ==>
              |NestedKey(outer, inner)| > 2 && NestedKey(outer, inner)[2] == outer[1]
  {
    DoubleRunsHead(outer);
    var step, d := RunStep(outer), DoubleRuns(outer[1..]);
    assert NestedKey(outer, inner) == step + d + "/" + inner;
    hide DoubleRuns;
    ConcatAssociates(step, d, "/");
    ConcatAssociates(step, d + "/", inner);
  }

  // Align when o1 is empty.
  lemma NoEmptyOuter(i1: string, o2: string, i2: string)
    requires i1 != "" && i1[0] == '.' && NestedKey("", i1) == NestedKey(o2, i2)
    ensures o2 == ""
  {
    var s := NestedKey(o2, i2);
    assert s == "/" + i1 && s[0] == '/' && s[1] == '.';
    if o2 != "" { DoubleRunsHead(o2); }
  }

  // Align when o1 is the last slash of a run.
  lemma RunEnds(o1: string, i1: string, o2: string, i2: string)
    requires i1 != "" && i1[0] == '.' && i2 != "" && i2[0] == '.'
    requires o1 == "/" && o2 != "" && NestedKey(o1, i1) == NestedKey(o2, i2)
    ensures (o1 == o2 && i1 == i2)
         || (EndsInSlash(o1) && o1 + "/" <= o2 && |o2| > |o1| + 1 && o2[|o1| + 1] == '.'
             && i1 == NestedKey(o2[|o1| + 1..], i2))
  {
    var s := NestedKey(o2, i2);
    DoubleRunsHead(o1);
    DoubleRunsHead(o2);
    assert s == "//" + "/" + i1;
    assert s[0] == o2[0] == '/' && s[2] == '/' && s[3..] == i1;
    if o2 == "/" {
      assert s[3..] == i2;
    } else {
      var t, u := o2[1..], o2[2..];
      assert s[2] == t[0] && s[1..] == NestedKey(t, i2);
      assert t == ['/'] + u && t[1..] == u;
      assert s[3] == '.';
      SecondSlash(t, i2);
      assert s[3..] == s[1..][2..];
    }
  }

  lemma SecondSlash(t: string, inner: string)
    requires t != "" && t[0] == '/' && inner != "" && NestedKey(t, inner)[2] == '.'
    ensures |t| > 1 && t[1] == '.' && NestedKey(t, inner)[2..] == NestedKey(t[1..], inner)
  {
    DoubleRunsHead(t);
  }

  // ---------- names under slash doubling ----------

  lemma {:induction false} LastColon(s: string) returns (init: string, last: string)
    requires ':' in s
    ensures s == init + ":" + last && ':' !in last
  {
    var n := |s| - 1;
    if s[n] == ':' {
      init, last := s[..n], "";
    } else {
      init, last := LastColon(s[..n]);
      last := last + [s[n]];
    }
  }

  function DoubleAll(tokens: seq<string>): seq<string> {
    seq(|tokens|, i requires 0 <= i < |tokens| => DoubleRuns(tokens[i]))
  }

  lemma {:induction false} DoubleKeepsColons(s: string)
    ensures ':' in DoubleRuns(s) <==> ':' in s
    ensures '/' in DoubleRuns(s) <==> '/' in s
  {
    if s != "" { DoubleKeepsColons(s[1..]); }
  }

  lemma DoubleAtColon(a: string, b: string)
    ensures DoubleRuns(a + ":" + b) == DoubleRuns(a) + ":" + DoubleRuns(b)
  {
    DoubleRunsConcat(a, ":" + b);
    assert a + (":" + b) == a + ":" + b;
    assert (":" + b)[1..] == b;
  }

  lemma {:induction false} SplitDoubled(s: string)
    ensures SplitColons(DoubleRuns(s)) == DoubleAll(SplitColons(s))
    decreases |s|
  {
    hide DoubleRuns, SplitColons;
    SplitNonEmpty(s);
    SplitNonEmpty(DoubleRuns(s));
    DoubleKeepsColons(s);
    if ':' in s {
      var a, b := LastColon(s);
      SplitAtColon(a, b);
      DoubleAtColon(a, b);
      SplitAtColon(DoubleRuns(a), DoubleRuns(b));
      SplitDoubled(a);
      SplitDoubled(b);
      DoubleAllConcat(SplitColons(a), SplitColons(b));
    } else {
      assert DoubleAll([s]) == [DoubleRuns(s)];
    }
  }

  lemma DoubleAllConcat(a: seq<string>, b: seq<string>)
    ensures DoubleAll(a + b) == DoubleAll(a) + DoubleAll(b)
  {
  }

  predicate AllDecode(tokens: seq<string>) {
    forall i :: 0 <= i < |tokens| ==> DecodeSegment(tokens[i]).Some?
  }

  lemma {:induction false} DecodeTokensByToken(tokens: seq<string>)
    ensures DecodeTokens(tokens).Some? <==> AllDecode(tokens)
    ensures DecodeTokens(tokens).Some? ==>
              |DecodeTokens(tokens).value| == |tokens|
              && forall i :: 0 <= i < |tokens| ==>
                   DecodeSegment(tokens[i]) == Some(DecodeTokens(tokens).value[i])
  {
    var n := |tokens|;
    if n > 0 {
      DecodeTokensByToken(tokens[..n - 1]);
      if AllDecode(tokens) {
        assert AllDecode(tokens[..n - 1]);
      }
    }
  }

  lemma LeafNameByToken(s: string)
    requires s != "" && s[0] == '.'
    ensures IsLeafName(s) <==> AllDecode(SplitColons(s[1..]))
  {
    SplitNonEmpty(s[1..]);
    DecodeTokensByToken(SplitColons(s[1..]));
  }

  // A string is the name of a keyed node when all its segments decode and the
  // last one is an explicit key.
  lemma NamesKeyedNodeByToken(s: string)
    requires s != "" && s[0] == '.'
    ensures SplitColons(s[1..]) != []
    ensures NamesKeyedNode(s) <==>
              var tokens := SplitColons(s[1..]);
              var last := tokens[|tokens| - 1];
              AllDecode(tokens) && last != "" && last[0] == '$'
  {
    var tokens := SplitColons(s[1..]);
    SplitNonEmpty(s[1..]);
    DecodeTokensByToken(tokens);
  }

  // ---------- when a slash-doubled name still decodes ----------

  lemma {:induction false} UnescapeDoubled(s: string)
    ensures Unescape(DoubleRuns(s)).Some? <==> Unescape(s).Some?
    decreases |s|
  {
    if s != "" {
      DoubleRunsHead(s);
      var d := DoubleRuns(s);
      UnescapeDoubled(s[1..]);
      if s[0] == '=' && |s| > 1 {
        DoubleRunsHead(s[1..]);
        assert d == "=" + DoubleRuns(s[1..]);
        if s[1] == '0' || s[1] == '2' {
          assert d[2..] == DoubleRuns(s[2..]) by { assert s[1..][1..] == s[2..]; }
          UnescapeDoubled(s[2..]);
        }
      } else if s[0] == '/' && (|s| == 1 || s[1] != '/') {
        assert d[1..] == "/" + DoubleRuns(s[1..]);
        assert d[1..][1..] == DoubleRuns(s[1..]);
      } else if s[0] != '=' {
        assert d[1..] == DoubleRuns(s[1..]);
      }
    }
  }

  lemma {:induction false} UnescapeAtSlash(a: string, b: string)
    ensures Unescape(a + "/" + b).Some? <==> Unescape(a).Some? && Unescape(b).Some?
    decreases |a|
  {
    var s := a + "/" + b;
    if a == "" {
      assert s[1..] == b;
    } else {
      assert s[1..] == a[1..] + "/" + b;
      UnescapeAtSlash(a[1..], b);
      if a[0] == '=' && |a| > 1 {
        assert s[2..] == a[2..] + "/" + b;
        UnescapeAtSlash(a[2..], b);
      }
    }
  }

  lemma {:induction false} NumeralHasNoSlash(s: string)
    requires ParseBase36(s).Some?
    ensures '/' !in s
  {
    Base36Exact(s, ParseBase36(s).value);
    Base36Digits(ParseBase36(s).value);
    assert DigitValue('/') == None;
  }

  lemma DecodeDoubled(t: string)
    ensures DecodeSegment(DoubleRuns(t)).Some? <==> DecodeSegment(t).Some?
  {
    if '/' !in t {
      NoSlashUnchanged(t);
    } else {
      DoubleKeepsColons(t);
      DoubleRunsHead(t);
      if t[0] == '$' {
        UnescapeDoubled(t[1..]);
        assert DoubleRuns(t)[1..] == DoubleRuns(t[1..]);
      } else {
        if ParseBase36(t).Some? { NumeralHasNoSlash(t); }
        if ParseBase36(DoubleRuns(t)).Some? { NumeralHasNoSlash(DoubleRuns(t)); }
      }
    }
  }

  lemma AllDecodeDoubled(tokens: seq<string>)
    ensures AllDecode(DoubleAll(tokens)) <==> AllDecode(tokens)
  {
    forall i | 0 <= i < |tokens| ensures DecodeSegment(DoubleAll(tokens)[i]).Some? <==> DecodeSegment(tokens[i]).Some? {
      DecodeDoubled(tokens[i]);
    }
  }

  // ---------- when a nested key is itself a leaf name ----------

  lemma {:induction false} PlainUnescapes(s: string)
    requires '=' !in s && ':' !in s
    ensures Unescape(s).Some?
  {
    if s != "" { PlainUnescapes(s[1..]); }
  }

  lemma DottedUnescapes(token: string)
    requires DecodeSegment(token).Some?
    ensures Unescape("." + token).Some?
  {
    assert ("." + token)[1..] == token;
    if token == "" || token[0] != '$' {
      Base36Exact(token, ParseBase36(token).value);
      Base36Digits(ParseBase36(token).value);
      assert DigitValue('=') == None && DigitValue(':') == None;
      PlainUnescapes(token);
    }
  }

  // The token around the separating slash decodes when the one before it is an explicit key.
  lemma SeparatorToken(t: string, token: string)
    requires DecodeSegment(token).Some?
    ensures DecodeSegment(DoubleRuns(t) + "/" + ("." + token)).Some?
            <==> t != "" && t[0] == '$' && DecodeSegment(t).Some?
  {
    hide *;
    if t != "" { DoubleRunsHead(t); }
    if t != "" && t[0] == '$' {
      var a, dotted := t[1..], "." + token;
      SeparatorAfterText(a, token);
      assert t == "$" + a;
      DecodeKey(a);
      SameHeadAndTail(DoubleRuns(t), DoubleRuns(a), "/" + dotted);
      assert DoubleRuns(t) + "/" + dotted == DoubleRuns(t) + ("/" + dotted);
      assert DoubleRuns(a) + "/" + dotted == DoubleRuns(a) + ("/" + dotted);
    } else {
      if t == "" { DoubleRunsOfNone(); }
      NotAKey(DoubleRuns(t) + "/" + ("." + token), |DoubleRuns(t)|);
    }
  }

  lemma DoubleRunsOfNone()
    ensures DoubleRuns("") == ""
  {
  }

  lemma SameHeadAndTail(s: string, tail: string, more: string)
    requires s != "" && s[0] == '$' && s[1..] == tail
    ensures s + more == "$" + (tail + more)
  {
  }

  lemma DecodeKey(escaped: string)
    ensures DecodeSegment("$" + escaped).Some? <==> Unescape(escaped).Some?
  {
    assert ("$" + escaped)[1..] == escaped;
  }

  lemma NotAKey(s: string, k: nat)
    requires k < |s| && s[k] == '/' && s[0] != '$'
    ensures DecodeSegment(s).None?
  {
    if ParseBase36(s).Some? { NumeralHasNoSlash(s); }
  }

  lemma SeparatorAfterText(a: string, token: string)
    requires DecodeSegment(token).Some?
    ensures DecodeSegment("$" + (DoubleRuns(a) + "/" + ("." + token))).Some? <==> Unescape(a).Some?
  {
    hide *;
    UnescapeDoubled(a);
    DottedUnescapes(token);
    UnescapeAtSlash(DoubleRuns(a), "." + token);
    DecodeKey(DoubleRuns(a) + "/" + ("." + token));
  }

  // The tokens of a nested key, from those of the outer and the inner name.
  function NestedTokens(own: seq<string>, rest: seq<string>): seq<string>
    requires own != [] && rest != []
  {
    var n := |own| - 1;
    DoubleAll(own[..n]) + [DoubleRuns(own[n]) + "/" + ("." + rest[0])] + rest[1..]
  }

  lemma SplitSlashed(inner: string)
    requires inner != "" && inner[0] == '.'
    ensures SplitColons(inner[1..]) != []
    ensures var rest := SplitColons(inner[1..]);
            SplitColons("/" + inner) == ["/" + ("." + rest[0])] + rest[1..]
  {
    SplitNonEmpty(inner[1..]);
    assert ("/" + inner)[1..] == inner;
  }

  lemma SplitNested(a: string, inner: string)
    requires inner != "" && inner[0] == '.'
    ensures SplitColons(a) != [] && SplitColons(inner[1..]) != []
    ensures SplitColons(DoubleRuns(a) + ("/" + inner)) == NestedTokens(SplitColons(a), SplitColons(inner[1..]))
  {
    hide SplitColons, DoubleRuns;
    var own, rest := SplitColons(a), SplitColons(inner[1..]);
    SplitDoubled(a);
    SplitNonEmpty(a);
    SplitSlashed(inner);
    SplitConcat(DoubleRuns(a), "/" + inner);
    var n, last := |own| - 1, "." + rest[0];
    assert DoubleAll(own)[..n] == DoubleAll(own[..n]);
    assert DoubleRuns(own[n]) + ("/" + last) == DoubleRuns(own[n]) + "/" + last;
  }

  lemma NestedTokensDecode(own: seq<string>, rest: seq<string>)
    requires own != [] && rest != [] && AllDecode(rest)
    ensures AllDecode(NestedTokens(own, rest))
            <==> AllDecode(own) && own[|own| - 1] != "" && own[|own| - 1][0] == '$'
  {
    var n := |own| - 1;
    var middle := DoubleRuns(own[n]) + "/" + ("." + rest[0]);
    SeparatorToken(own[n], rest[0]);
    AllDecodeDoubled(own[..n]);
    MiddleDecodes(DoubleAll(own[..n]), middle, rest);
    assert AllDecode(own) <==> AllDecode(own[..n]) && DecodeSegment(own[n]).Some? by {
      MiddleDecodes(own[..n], own[n], [own[n]]);
      assert own == own[..n] + [own[n]] + [own[n]][1..];
    }
  }

  lemma NestedKeyTail(r: string, inner: string)
    requires r != "" && r[0] == '.'
    ensures var name := NestedKey(r, inner);
            name != "" && name[0] == '.' && name[1..] == DoubleRuns(r[1..]) + ("/" + inner)
  {
    NestedKeyStep(r, inner);
    hide DoubleRuns;
    assert NestedKey(r[1..], inner) == DoubleRuns(r[1..]) + ("/" + inner);
  }

  lemma NestedKeyDecodes(r: string, inner: string)
    requires r != "" && r[0] == '.' && IsLeafName(inner)
    ensures IsLeafName(NestedKey(r, inner)) <==> NamesKeyedNode(r)
  {
    var a, name := r[1..], NestedKey(r, inner);
    hide SplitColons, DecodeSegment, DecodeTokens, NestedTokens, DoubleRuns, NestedKey;
    NestedKeyTail(r, inner);
    SplitNested(a, inner);
    LeafNameByToken(inner);
    LeafNameByToken(name);
    NestedTokensDecode(SplitColons(a), SplitColons(inner[1..]));
    NamesKeyedNodeByToken(r);
  }

  lemma MiddleDecodes(before: seq<string>, middle: string, rest: seq<string>)
    requires rest != [] && AllDecode(rest[1..])
    ensures AllDecode(before + [middle] + rest[1..]) <==> AllDecode(before) && DecodeSegment(middle).Some?
  {
    var all := before + [middle] + rest[1..];
    assert all[|before|] == middle;
    assert forall i :: 0 <= i < |before| ==> all[i] == before[i];
    assert forall i :: |before| < i < |all| ==> all[i] == rest[1..][i - |before| - 1];
  }

  // ---------- the main results ----------

  lemma LeafNameShape(s: string)
    requires IsLeafName(s)
    ensures s != "" && s[0] == '.'
  {
  }

  // Two different outer names can give one element key exactly when one of them
  // ends in '/' and the other continues it with '/' and the name of a keyed node.
  lemma NestedKeysCollide(o1: string, o2: string)
    requires o1 != o2
    ensures (exists i1, i2 :: IsLeafName(i1) && IsLeafName(i2) && NestedKey(o1, i1) == NestedKey(o2, i2))
            <==> Clash(o1, o2) || Clash(o2, o1)
  {
    if Clash(o1, o2) { ClashCollides(o1, o2); }
    if Clash(o2, o1) { ClashCollides(o2, o1); }
    if i1, i2 :| IsLeafName(i1) && IsLeafName(i2) && NestedKey(o1, i1) == NestedKey(o2, i2) {
      CollisionClashes(o1, i1, o2, i2);
    }
  }

  lemma CollisionClashes(o1: string, i1: string, o2: string, i2: string)
    requires IsLeafName(i1) && IsLeafName(i2) && NestedKey(o1, i1) == NestedKey(o2, i2)
    ensures (o1 == o2 && i1 == i2) || Clash(o1, o2) || Clash(o2, o1)
  {
    if |o1| <= |o2| {
      Align(o1, i1, o2, i2);
      if o1 != o2 { NestedKeyDecodes(o2[|o1| + 1..], i2); }
    } else {
      Align(o2, i2, o1, i1);
      NestedKeyDecodes(o1[|o2| + 1..], i1);
    }
  }

  lemma ClashCollides(shorter: string, longer: string)
    requires Clash(shorter, longer)
    ensures exists i1, i2 :: IsLeafName(i1) && IsLeafName(i2) && NestedKey(shorter, i1) == NestedKey(longer, i2)
  {
    var r, i2 := longer[|shorter| + 1..], PathName([Index(0)]);
    DecodePathName([Index(0)]);
    hide PathName, DoubleRuns, DecodePath;
    assert IsLeafName(i2);
    assert longer == shorter + "/" + r;
    LeafNameShape(r);
    NestedKeyDecodes(r, i2);
    hide *;
    ClashKeys(shorter, r, i2);
    var i1 := NestedKey(r, i2);
    assert NestedKey(shorter, i1) == NestedKey(longer, i2);
  }

  lemma ClashKeys(shorter: string, r: string, inner: string)
    requires EndsInSlash(shorter) && r != "" && r[0] == '.'
    ensures NestedKey(shorter, NestedKey(r, inner)) == NestedKey(shorter + "/" + r, inner)
  {
    hide DoubleRuns;
    DoubleTrailingSlash(shorter);
    DoubleRunsConcat(shorter + "/", r);
    var a, b := DoubleRuns(shorter) + "/", DoubleRuns(r);
    assert NestedKey(shorter + "/" + r, inner) == (a + b) + "/" + inner;
    ConcatAssociates(a, b, "/" + inner);
    assert (a + b) + "/" + inner == a + (b + "/" + inner);
  }

  lemma {:induction false} DoubleTrailingSlash(s: string)
    requires EndsInSlash(s)
    ensures DoubleRuns(s + "/") == DoubleRuns(s) + "/"
  {
    var t := s[1..];
    assert (s + "/")[1..] == t + "/";
    if t == "" {
      assert s == "/" && DoubleRuns("/") == "//";
      assert DoubleRuns(s + "/") == "/" + DoubleRuns("/");
    } else {
      DoubleTrailingSlash(t);
      ConcatAssociates(RunStep(s), DoubleRuns(t), "/");
    }
  }

  // Without outer names that end in '/', outer and inner name are both recovered.
  lemma NestedKeyInjective(o1: string, i1: string, o2: string, i2: string)
    requires !EndsInSlash(o1) && !EndsInSlash(o2) && IsLeafName(i1) && IsLeafName(i2)
    requires NestedKey(o1, i1) == NestedKey(o2, i2)
    ensures o1 == o2 && i1 == i2
  {
    CollisionClashes(o1, i1, o2, i2);
  }

  // Lengthening the last key by text that needs no escaping lengthens the name.
  lemma ExtendKey(path: seq<Segment>, more: string)
    requires path != [] && path[|path| - 1].Key? && EscapeChars(more) == more
    ensures var n := |path| - 1;
            PathName(path[..n] + [Key(path[n].text + more)]) == PathName(path) + more
  {
    var n := |path| - 1;
    var init, text := path[..n], path[n].text;
    assert path == init + [Key(text)];
    PathNameAppend(init, Key(text));
    PathNameAppend(init, Key(text + more));
    EscapeConcat(text, more);
    hide PathName, EscapeChars;
    ConcatAssociates("$", EscapeChars(text), more);
    ConcatAssociates(NamePrefix(init), EscapeKey(text), more);
  }

  lemma SlashMeansKey(path: seq<Segment>)
    requires path != [] && EndsInSlash(PathName(path))
    ensures path[|path| - 1].Key?
  {
    var text := SegmentText(path[|path| - 1]);
    DecodeSegmentText(path[|path| - 1]);
    assert text[|text| - 1] == '/';
    if path[|path| - 1].Index? {
      Base36RoundTrip(path[|path| - 1].position);
      NumeralHasNoSlash(text);
    }
  }

  // The family that must be excluded: every leaf name that ends in '/' clashes
  // with the leaf name that continues it with "/.$".
  lemma TrailingSlashClashes(outer: string)
    requires IsLeafName(outer) && EndsInSlash(outer)
    ensures IsLeafName(outer + "/.$") && Clash(outer, outer + "/.$")
  {
    LiteralKeys();
    ExtendedLeafName(outer, "/.$");
    hide IsLeafName, NamesKeyedNode;
    ClashByContinuation(outer, ".$");
  }

  lemma ExtendedLeafName(outer: string, more: string)
    requires IsLeafName(outer) && EndsInSlash(outer) && EscapeChars(more) == more
    ensures IsLeafName(outer + more)
  {
    var path := DecodePath(outer).value;
    DecodePathExact(outer, path);
    SlashMeansKey(path);
    ExtendKey(path, more);
    var n := |path| - 1;
    var longer := path[..n] + [Key(path[n].text + more)];
    DecodePathName(longer);
    hide PathName, DecodePath;
    assert DecodePath(outer + more) == Some(longer);
  }

  lemma ClashByContinuation(outer: string, r: string)
    requires EndsInSlash(outer) && NamesKeyedNode(r)
    ensures Clash(outer, outer + ("/" + r))
  {
    var longer := outer + ("/" + r);
    assert longer[|outer| + 1..] == r;
  }

  lemma LiteralKeys()
    ensures EscapeChars("/.$") == "/.$" && NamesKeyedNode(".$")
  {
    assert "/.$"[1..] == ".$" && ".$"[1..] == "$" && "$"[1..] == "";
    NamesKeyedNodeByToken(".$");
    SplitNonEmpty("$");
    assert AllDecode(["$"]) by { assert Unescape("$"[1..]) == Some(""); }
  }
}
