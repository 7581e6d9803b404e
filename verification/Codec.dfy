/**
 * The nested-brace codec (common/coder.cpp): a list of string pairs as "{first}{second}..." and
 * back. A failed assertion of the decoder is modelled as `None`.
 */
module Codec {
  import opened Wrappers

  type Pairs = seq<(string, string)>

  // ----- encoding

  function Encode(v: Pairs): string {
    if v == [] then "" else Encode(v[..|v| - 1]) + Field(v[|v| - 1].0) + Field(v[|v| - 1].1)
  }

  function Field(s: string): string {
    "{" + s + "}"
  }

  /** encode_vec */
  method EncodeVec(v: Pairs) returns (r: string)
    ensures r == Encode(v)
  {
    r := "";
    var i := 0;
    while i < |v|
      invariant 0 <= i <= |v| && r == Encode(v[..i])
    {
      r := r + ("{" + v[i].0 + "}{" + v[i].1 + "}");
      assert v[..i + 1][..i] == v[..i];
      assert r == Encode(v[..i]) + Field(v[i].0) + Field(v[i].1);
      i := i + 1;
    }
    assert v[..i] == v;
  }

  // ----- balance

  function Depth(s: string): int {
    if s == "" then 0
    else Depth(s[..|s| - 1]) + (if s[|s| - 1] == '{' then 1 else if s[|s| - 1] == '}' then -1 else 0)
  }

  /** Every closing brace closes an earlier one and all are closed. */
  predicate Balanced(s: string) {
    Depth(s) == 0 && forall i :: 0 <= i <= |s| ==> Depth(s[..i]) >= 0
  }

  lemma {:induction false} DepthAppend(a: string, b: string)
    ensures Depth(a + b) == Depth(a) + Depth(b)
  {
    if b == "" {
      assert a + b == a;
    } else {
      assert (a + b)[..|a + b| - 1] == a + b[..|b| - 1];
      DepthAppend(a, b[..|b| - 1]);
    }
  }

  lemma BalancedAppend(a: string, b: string)
    requires Balanced(a) && Balanced(b)
    ensures Balanced(a + b)
  {
    DepthAppend(a, b);
    forall i | 0 <= i <= |a + b|
      ensures Depth((a + b)[..i]) >= 0
    {
      if i <= |a| {
        assert (a + b)[..i] == a[..i];
      } else {
        assert (a + b)[..i] == a + b[..i - |a|];
        DepthAppend(a, b[..i - |a|]);
      }
    }
  }

  lemma BalancedField(s: string)
    requires Balanced(s)
    ensures Balanced(Field(s))
  {
    var f := Field(s);
    assert Depth("{") == Depth("{"[..0]) + 1 == 1;
    assert Depth("}") == Depth("}"[..0]) - 1 == -1;
    DepthAppend("{" + s, "}");
    DepthAppend("{", s);
    forall i | 0 <= i <= |f|
      ensures Depth(f[..i]) >= 0
    {
      if i == |f| {
        assert f[..i] == f;
      } else if i > 0 {
        assert f[..i] == "{" + s[..i - 1];
        DepthAppend("{", s[..i - 1]);
      }
    }
  }

  ghost predicate AllBalanced(v: Pairs) {
    forall i :: 0 <= i < |v| ==> Balanced(v[i].0) && Balanced(v[i].1)
  }

  /** Encodings are balanced themselves, so they can be fields of other encodings. */
  lemma {:induction false} EncodingBalanced(v: Pairs)
    requires AllBalanced(v)
    ensures Balanced(Encode(v))
  {
    if v != [] {
      var n := |v| - 1;
      EncodingBalanced(v[..n]);
      BalancedField(v[n].0);
      BalancedField(v[n].1);
      BalancedAppend(Encode(v[..n]), Field(v[n].0));
      BalancedAppend(Encode(v[..n]) + Field(v[n].0), Field(v[n].1));
    }
  }

  // ----- decoding

  /** The variables of the decoding loop; `ok` until an assertion fails. */
  datatype Scan = Scan(ok: bool, depth: int, isFirst: bool, tmp: string, fi: string, out: Pairs)

  function Take(s: Scan, c: char): Scan {
    var tmp := if s.depth > 1 || (s.depth == 1 && c != '}') then s.tmp + [c] else s.tmp;
    var t :=
      if s.depth == 1 && c == '}' then
        if s.isFirst then s.(fi := tmp, isFirst := false, tmp := "")
        else s.(out := s.out + [(s.fi, tmp)], fi := "", isFirst := true, tmp := "")
      else s.(tmp := tmp);
    var depth := if c == '{' then s.depth + 1 else if c == '}' then s.depth - 1 else s.depth;
    t.(depth := depth, ok := s.ok && (depth == 0 ==> c == '}' || c == '{'))
  }

  function Feed(s: Scan, e: string): Scan {
    if e == "" then s else Take(Feed(s, e[..|e| - 1]), e[|e| - 1])
  }

  const START := Scan(true, 0, true, "", "", [])

  function Decode(e: string): Option<Pairs> {
    if e == "" then Some([])
    else
      var s := Feed(START, e);
      if |e| > 1 && e[0] == '{' && e[|e| - 1] == '}' && s.ok && s.depth == 0 && s.fi == "" then Some(s.out) else None
  }

  /** decode_vec */
  method DecodeVec(e: string) returns (r: Option<Pairs>)
    ensures r == Decode(e)
  {
    var v: Pairs, n, depth := [], |e|, 0;
    if n == 0 {
      return Some(v);
    }
    if !(n > 1) || !(e[0] == '{' && e[n - 1] == '}') {
      return None;
    }
    var isFirst, tmp, fi, ok := true, "", "", true;
    var i := 0;
    while i < n
      invariant 0 <= i <= n && Scan(ok, depth, isFirst, tmp, fi, v) == Feed(START, e[..i])
    {
      assert e[..i + 1][..i] == e[..i];
      if depth > 1 || (depth == 1 && e[i] != '}') {
        tmp := tmp + [e[i]];
      }
      if depth == 1 && e[i] == '}' {
        if isFirst {
          fi := tmp;
        } else {
          v := v + [(fi, tmp)];
          fi := "";
        }
        isFirst := !isFirst;
        tmp := "";
      }
      if e[i] == '{' {
        depth := depth + 1;
      } else if e[i] == '}' {
        depth := depth - 1;
      }
      if depth == 0 && !(e[i] == '}' || e[i] == '{') {
        ok := false;
      }
      i := i + 1;
    }
    assert e[..n] == e;
    if !ok || depth != 0 || fi != "" {
      return None;
    }
    r := Some(v);
  }

  // ----- the round trip

  lemma {:induction false} FeedAppend(s: Scan, a: string, b: string)
    ensures Feed(s, a + b) == Feed(Feed(s, a), b)
  {
    if b == "" {
      assert a + b == a;
    } else {
      assert (a + b)[..|a + b| - 1] == a + b[..|b| - 1];
      FeedAppend(s, a, b[..|b| - 1]);
    }
  }

  /** Inside a field, text that never closes it is collected as it is. */
  lemma {:induction false} FeedInside(s: Scan, e: string)
    requires s.depth == 1 && forall i :: 0 <= i <= |e| ==> Depth(e[..i]) >= 0
    ensures Feed(s, e) == s.(depth := 1 + Depth(e), tmp := s.tmp + e)
  {
    if e != "" {
      var n := |e| - 1;
      assert forall i :: 0 <= i <= n ==> e[..n][..i] == e[..i];
      FeedInside(s, e[..n]);
      assert Depth(e[..n]) >= 0 && Depth(e[..|e|]) >= 0 && e[..|e|] == e;
      assert e == e[..n] + [e[n]];
      assert s.tmp + e == s.tmp + e[..n] + [e[n]];
    } else {
      assert s.tmp + e == s.tmp;
    }
  }

  /** One field at depth 0. */
  lemma FeedField(s: Scan, f: string)
    requires s.ok && s.depth == 0 && s.tmp == "" && Balanced(f)
    ensures Feed(s, Field(f)) ==
            if s.isFirst then s.(fi := f, isFirst := false)
            else s.(out := s.out + [(s.fi, f)], fi := "", isFirst := true)
  {
    FeedAppend(s, "{" + f, "}");
    FeedAppend(s, "{", f);
    assert Feed(s, "{") == Take(Feed(s, "{"[..0]), '{');
    var inside := Feed(s, "{");
    FeedInside(inside, f);
    assert "" + f == f;
    assert Feed(Feed(inside, f), "}") == Take(Feed(Feed(inside, f), "}"[..0]), '}');
  }

  lemma FeedPair(s: Scan, e: string, x: string, y: string)
    requires var t := Feed(s, e); t.ok && t.depth == 0 && t.isFirst && t.tmp == "" && t.fi == ""
    requires Balanced(x) && Balanced(y)
    ensures Feed(s, e + Field(x) + Field(y)) == Feed(s, e).(out := Feed(s, e).out + [(x, y)])
  {
    var t := Feed(s, e);
    FeedAppend(s, e + Field(x), Field(y));
    FeedAppend(s, e, Field(x));
    FeedField(t, x);
    FeedField(Feed(t, Field(x)), y);
  }

  lemma {:induction false} FeedEncoding(v: Pairs)
    requires AllBalanced(v)
    ensures Feed(START, Encode(v)) == START.(out := v)
  {
    if v != [] {
      var n := |v| - 1;
      assert AllBalanced(v[..n]) && Balanced(v[n].0) && Balanced(v[n].1);
      FeedEncoding(v[..n]);
      FeedPair(START, Encode(v[..n]), v[n].0, v[n].1);
      assert v[..n] + [(v[n].0, v[n].1)] == v;
    }
  }

  lemma {:induction false} EncodingEnds(v: Pairs)
    requires v != []
    ensures var e := Encode(v); |e| > 1 && e[0] == '{' && e[|e| - 1] == '}'
  {
    var n := |v| - 1;
    if n > 0 {
      EncodingEnds(v[..n]);
    }
  }

  /** Decoding returns exactly the pairs that were encoded, and no assertion fires. */
  lemma RoundTrip(v: Pairs)
    requires AllBalanced(v)
    ensures Decode(Encode(v)) == Some(v)
  {
    if v != [] {
      EncodingEnds(v);
      FeedEncoding(v);
    }
  }

  // ----- the exact condition

  /** What the scanner has collected never closes more than it opened. */
  predicate Opens(s: string) {
    forall i :: 0 <= i <= |s| ==> Depth(s[..i]) >= 0
  }

  /** Inside a field the depth is that of the collected text; outside nothing is collected. */
  ghost predicate ScanOK(s: Scan) {
    && (s.depth >= 1 ==> Depth(s.tmp) == s.depth - 1 && Opens(s.tmp))
    && (s.depth <= 0 ==> s.tmp == "")
    && AllBalanced(s.out)
    && Balanced(s.fi)
  }

  lemma OpensMore(s: string, c: char)
    requires Opens(s) && Depth(s + [c]) >= 0
    ensures Opens(s + [c])
  {
    var t := s + [c];
    forall i | 0 <= i <= |t|
      ensures Depth(t[..i]) >= 0
    {
      assert t[..i] == if i <= |s| then s[..i] else t;
    }
  }

  lemma DepthMore(s: string, c: char)
    ensures Depth(s + [c]) == Depth(s) + (if c == '{' then 1 else if c == '}' then -1 else 0)
  {
    assert (s + [c])[..|s|] == s;
  }

  /** The end of a field delivers balanced text. */
  lemma TakeField(s: Scan)
    requires ScanOK(s) && s.depth == 1
    ensures ScanOK(Take(s, '}'))
  {
    assert Balanced(s.tmp);
    assert Balanced("");
  }

  lemma TakeOK(s: Scan, c: char)
    requires ScanOK(s)
    ensures ScanOK(Take(s, c))
  {
    if s.depth == 1 && c == '}' {
      TakeField(s);
    } else if s.depth >= 1 {
      DepthMore(s.tmp, c);
      OpensMore(s.tmp, c);
    } else {
      assert Depth("") == 0 && Opens("");
    }
  }

  lemma {:induction false} FeedOK(s: Scan, e: string)
    requires ScanOK(s)
    ensures ScanOK(Feed(s, e))
  {
    if e != "" {
      FeedOK(s, e[..|e| - 1]);
      TakeOK(Feed(s, e[..|e| - 1]), e[|e| - 1]);
    }
  }

  /** Whatever is decoded, from any input, is balanced. */
  lemma DecodedBalanced(e: string)
    ensures Decode(e).Some? ==> AllBalanced(Decode(e).value)
  {
    FeedOK(START, e);
  }

  /** The round trip succeeds exactly for lists of balanced strings. */
  lemma RoundTripExact(v: Pairs)
    ensures Decode(Encode(v)) == Some(v) <==> AllBalanced(v)
  {
    if AllBalanced(v) {
      RoundTrip(v);
    }
    DecodedBalanced(Encode(v));
  }

  // ----- nesting

  /** Texts, and lists of pairs of such trees, to any depth. */
  datatype Nest = Text(text: string) | List(list: NestList)
  datatype NestList = Nil | Cons(first: Nest, second: Nest, rest: NestList)

  function Flat(n: Nest): string {
    match n
    case Text(t) => t
    case List(l) => Encode(FlatPairs(l))
  }

  function FlatPairs(l: NestList): Pairs {
    match l
    case Nil => []
    case Cons(a, b, rest) => [(Flat(a), Flat(b))] + FlatPairs(rest)
  }

  /** Decoding level by level, along the shape of `n`. */
  function Unflat(n: Nest, e: string): Option<Nest> {
    match n
    case Text(_) => Some(Text(e))
    case List(l) =>
      match Decode(e)
      case None => None
      case Some(v) =>
        match UnflatPairs(l, v)
        case None => None
        case Some(m) => Some(List(m))
  }

  function UnflatPairs(l: NestList, v: Pairs): Option<NestList> {
    match l
    case Nil => if v == [] then Some(Nil) else None
    case Cons(a, b, rest) =>
      if v == [] then None
      else
        match (Unflat(a, v[0].0), Unflat(b, v[0].1), UnflatPairs(rest, v[1..]))
        case (Some(x), Some(y), Some(z)) => Some(Cons(x, y, z))
        case _ => None
  }

  ghost predicate TextsBalanced(n: Nest) {
    match n
    case Text(t) => Balanced(t)
    case List(l) => ListBalanced(l)
  }

  ghost predicate ListBalanced(l: NestList) {
    match l
    case Nil => true
    case Cons(a, b, rest) => TextsBalanced(a) && TextsBalanced(b) && ListBalanced(rest)
  }

  lemma {:induction false} FlatBalanced(n: Nest)
    requires TextsBalanced(n)
    ensures Balanced(Flat(n))
  {
    match n
    case Text(_) =>
    case List(l) =>
      FlatPairsBalanced(l);
      EncodingBalanced(FlatPairs(l));
  }

  lemma {:induction false} FlatPairsBalanced(l: NestList)
    requires ListBalanced(l)
    ensures AllBalanced(FlatPairs(l))
  {
    match l
    case Nil =>
    case Cons(a, b, rest) =>
      FlatBalanced(a);
      FlatBalanced(b);
      FlatPairsBalanced(rest);
  }

  /** A tree of encodings of any depth comes back whole when its texts are balanced. */
  lemma {:induction false} NestedRoundTrip(n: Nest)
    requires TextsBalanced(n)
    ensures Unflat(n, Flat(n)) == Some(n)
  {
    match n
    case Text(_) =>
    case List(l) =>
      FlatPairsBalanced(l);
      RoundTrip(FlatPairs(l));
      PairsRoundTrip(l);
  }

  lemma {:induction false} PairsRoundTrip(l: NestList)
    requires ListBalanced(l)
    ensures UnflatPairs(l, FlatPairs(l)) == Some(l)
  {
    match l
    case Nil =>
    case Cons(a, b, rest) =>
      NestedRoundTrip(a);
      NestedRoundTrip(b);
      PairsRoundTrip(rest);
      var v := FlatPairs(l);
      assert v[0] == (Flat(a), Flat(b)) && v[1..] == FlatPairs(rest);
  }

  /** An instance of a list that does not come back: a brace of a field's text is taken for the codec's. */
  lemma UnbalancedIsLost()
    ensures Decode(Encode([("}", "{")])) == Some([("", "")])
  {
    var e := "{}}{{}";
    assert Encode([]) == "";
    assert [("}", "{")][..0] == [];
    assert Encode([("}", "{")]) == e;
    assert e[..6] == e && e[..6][..5] == e[..5] && e[..5][..4] == e[..4] && e[..4][..3] == e[..3] && e[..3][..2] == e[..2]
        && e[..2][..1] == e[..1] && e[..1][..0] == "";
    assert Feed(START, e[..1]) == START.(depth := 1);
    assert Feed(START, e[..2]) == START.(isFirst := false);
    assert Feed(START, e[..3]) == START.(isFirst := false, depth := -1);
    assert Feed(START, e[..4]) == START.(isFirst := false);
    assert Feed(START, e[..5]) == START.(isFirst := false, depth := 1);
    assert Feed(START, e[..6]) == START.(out := [("", "")]);
  }
}
