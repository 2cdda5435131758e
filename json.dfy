/**
  The JSON codec for `map[string]string` that the token code gets from
  `encoding/json`, as a stand-in: `Marshal` writes an object whose keys come in
  increasing byte order (as Go sorts map keys), escaping quotes, backslashes,
  control bytes and `<`, `>`, `&` the way Go does for ASCII; `Unmarshal` reads
  objects whose values are all strings, later duplicates winning.
 */
module Json {
  import opened Wrappers
  import opened GoStrings

  type StringMap = map<GoString, GoString>

  const LBrace: byte := 123
  const RBrace: byte := 125
  const DQuote: byte := 34
  const Backslash: byte := 92
  const Colon: byte := 58
  const Comma: byte := 44

  // ---------------------------------------------------------------------------
  // Byte order of keys

  /** `a` sorts before or equal to `b` when strings are compared byte by byte, as Go compares them. */
  predicate LexLe(a: GoString, b: GoString)
    decreases |a|
  {
    |a| == 0 || (|b| > 0 && (a[0] < b[0] || (a[0] == b[0] && LexLe(a[1..], b[1..]))))
  }

  lemma {:induction false} LexTotal(a: GoString, b: GoString)
    ensures LexLe(a, b) || LexLe(b, a)
    decreases |a|
  {
    if |a| > 0 && |b| > 0 && a[0] == b[0] {
      LexTotal(a[1..], b[1..]);
    }
  }

  lemma {:induction false} LexTrans(a: GoString, b: GoString, c: GoString)
    requires LexLe(a, b) && LexLe(b, c)
    ensures LexLe(a, c)
    decreases |a|
  {
    if |a| > 0 && a[0] == b[0] && b[0] == c[0] {
      LexTrans(a[1..], b[1..], c[1..]);
    }
  }

  lemma {:induction false} LexAntisym(a: GoString, b: GoString)
    requires LexLe(a, b) && LexLe(b, a)
    ensures a == b
    decreases |a|
  {
    if |a| > 0 {
      LexAntisym(a[1..], b[1..]);
      assert a == [a[0]] + a[1..] && b == [b[0]] + b[1..];
    }
  }

  predicate IsLeast(k: GoString, s: set<GoString>) {
    k in s && forall y :: y in s ==> LexLe(k, y)
  }

  lemma {:induction false} LeastExists(s: set<GoString>)
    requires s != {}
    ensures exists k :: IsLeast(k, s)
    decreases s
  {
    var x :| x in s;
    if s != {x} {
      LeastExists(s - {x});
      var m :| IsLeast(m, s - {x});
      LexTotal(x, m);
      if LexLe(x, m) {
        forall y | y in s ensures LexLe(x, y) {
          if y != x { LexTrans(x, m, y); } else { LexTotal(x, x); }
        }
        assert IsLeast(x, s);
      } else {
        assert IsLeast(m, s);
      }
    } else {
      LexTotal(x, x);
      assert IsLeast(x, s);
    }
  }

  lemma LeastUnique(s: set<GoString>)
    ensures forall a, b :: IsLeast(a, s) && IsLeast(b, s) ==> a == b
  {
    forall a, b | IsLeast(a, s) && IsLeast(b, s) ensures a == b {
      LexAntisym(a, b);
    }
  }

  /** The keys of a map in the order Go's encoder writes them: increasing, each once. */
  function SortedKeys(s: set<GoString>): (ks: seq<GoString>)
    ensures forall k :: k in ks <==> k in s
    ensures forall i, j :: 0 <= i < j < |ks| ==> LexLe(ks[i], ks[j]) && ks[i] != ks[j]
    decreases s
  {
    if s == {} then []
    else
      LeastExists(s);
      LeastUnique(s);
      var k :| IsLeast(k, s);
      [k] + SortedKeys(s - {k})
  }

  // ---------------------------------------------------------------------------
  // Encoding

  /** The lower-case hexadecimal digit of a value below 16. */
  function Hex(v: int): (c: byte)
    requires 0 <= v < 16
  {
    if v < 10 then 48 + v else 97 + (v - 10)
  }

  /** The value of a hexadecimal digit of either case. */
  function HexValue(c: byte): (r: Option<int>)
    ensures r.Some? ==> 0 <= r.value < 16
  {
    if 48 <= c <= 57 then Some(c - 48)
    else if 97 <= c <= 102 then Some(c - 97 + 10)
    else if 65 <= c <= 70 then Some(c - 65 + 10)
    else None
  }

  /** The value of the four hexadecimal digits of a `\u` escape. */
  function HexNumber(h: GoString): (r: Option<int>)
    requires |h| == 4
    ensures r.Some? ==> 0 <= r.value < 0x10000
  {
    var d0, d1, d2, d3 := HexValue(h[0]), HexValue(h[1]), HexValue(h[2]), HexValue(h[3]);
    if d0.None? || d1.None? || d2.None? || d3.None? then None
    else Some(((d0.value * 16 + d1.value) * 16 + d2.value) * 16 + d3.value)
  }

  /** How one byte of a string is written inside the quotes. */
  function EscapeByte(c: byte): GoString {
    if c == DQuote || c == Backslash then [Backslash, c]
    else if c == 8 then [Backslash, 98]
    else if c == 12 then [Backslash, 102]
    else if c == 10 then [Backslash, 110]
    else if c == 13 then [Backslash, 114]
    else if c == 9 then [Backslash, 116]
    else if c < 32 || c == 60 || c == 62 || c == 38 then [Backslash, 117, 48, 48, Hex(c / 16), Hex(c % 16)]
    else [c]
  }

  function Escape(x: GoString): GoString {
    if x == [] then [] else EscapeByte(x[0]) + Escape(x[1..])
  }

  function Quote(x: GoString): GoString {
    [DQuote] + Escape(x) + [DQuote]
  }

  function Member(k: GoString, v: GoString): GoString {
    Quote(k) + [Colon] + Quote(v)
  }

  function Members(ks: seq<GoString>, m: StringMap): GoString
    requires forall i :: 0 <= i < |ks| ==> ks[i] in m
  {
    if ks == [] then []
    else if |ks| == 1 then Member(ks[0], m[ks[0]])
    else Member(ks[0], m[ks[0]]) + [Comma] + Members(ks[1..], m)
  }

  /** `json.Marshal` of a `map[string]string`; it cannot fail. */
  function Marshal(m: StringMap): (b: GoString)
    ensures |b| >= 2 && b[0] == LBrace && b[|b| - 1] == RBrace
  {
    [LBrace] + Members(SortedKeys(m.Keys), m) + [RBrace]
  }

  /** The JSON literal `null`. */
  const Null: GoString := [110, 117, 108, 108]

  /** `json.Marshal` of a `map[string]string` that may be nil: a nil map is written as `null`. */
  function MarshalMap(m: GoMap): (b: GoString)
    ensures b == Null <==> m.Nil?
  {
    match m
    case Nil => Null
    case Map(entries) => Marshal(entries)
  }

  // ---------------------------------------------------------------------------
  // Decoding

  /** The byte an escape stands for (the input follows the backslash), and how many bytes the escape used. */
  function Unescape(s: GoString): (r: Option<(byte, nat)>)
    ensures r.Some? ==> 1 <= r.value.1 <= |s|
  {
    if s == [] then None
    else if s[0] == DQuote || s[0] == Backslash || s[0] == 47 then Some((s[0], 1))
    else if s[0] == 98 then Some((8, 1))
    else if s[0] == 102 then Some((12, 1))
    else if s[0] == 110 then Some((10, 1))
    else if s[0] == 114 then Some((13, 1))
    else if s[0] == 116 then Some((9, 1))
    else if s[0] == 117 && |s| >= 5 then
      var v := HexNumber(s[1..5]);
      if v.Some? && v.value < 128 then Some((v.value, 5)) else None
    else None
  }

  /** A string's contents up to its closing quote (the input follows the opening quote), and what follows the closing quote. */
  function ParseStringBody(s: GoString): (r: Option<(GoString, GoString)>)
    ensures r.Some? ==> |r.value.1| < |s|
    decreases |s|
  {
    if s == [] then None
    else if s[0] == DQuote then Some(([], s[1..]))
    else if s[0] < 32 then None
    else if s[0] == Backslash then
      var e := Unescape(s[1..]);
      if e.None? then None
      else
        var tail := ParseStringBody(s[1 + e.value.1..]);
        if tail.None? then None else Some(([e.value.0] + tail.value.0, tail.value.1))
    else
      var tail := ParseStringBody(s[1..]);
      if tail.None? then None else Some(([s[0]] + tail.value.0, tail.value.1))
  }

  /** One `"key":"value"` member, and what follows it. */
  function ParseMember(s: GoString): (r: Option<((GoString, GoString), GoString)>)
    ensures r.Some? ==> |r.value.1| < |s|
  {
    if |s| == 0 || s[0] != DQuote then None
    else
      var key := ParseStringBody(s[1..]);
      if key.None? then None
      else
        var r1 := key.value.1;
        if |r1| < 2 || r1[0] != Colon || r1[1] != DQuote then None
        else
          var value := ParseStringBody(r1[2..]);
          if value.None? then None else Some(((key.value.0, value.value.0), value.value.1))
  }

  /** One or more members separated by commas, up to the closing brace (the input follows the opening brace). */
  function ParseMembers(s: GoString): (r: Option<(seq<(GoString, GoString)>, GoString)>)
    ensures r.Some? ==> |r.value.1| < |s|
    decreases |s|
  {
    var first := ParseMember(s);
    if first.None? then None
    else
      var r2 := first.value.1;
      if |r2| == 0 then None
      else if r2[0] == RBrace then Some(([first.value.0], r2[1..]))
      else if r2[0] != Comma then None
      else
        var others := ParseMembers(r2[1..]);
        if others.None? then None else Some(([first.value.0] + others.value.0, others.value.1))
  }

  /** The map built by storing the pairs in order: a later pair overwrites an earlier one with the same key. */
  function FromPairs(ps: seq<(GoString, GoString)>): StringMap {
    if ps == [] then map[] else map[ps[0].0 := ps[0].1] + FromPairs(ps[1..])
  }

  /** A JSON object whose values are all strings, read into a map. */
  function Unmarshal(b: GoString): (r: Option<StringMap>)
    ensures r.Some? ==> |b| >= 2 && b[0] == LBrace
  {
    if |b| == 2 && b[0] == LBrace && b[1] == RBrace then Some(map[])
    else if |b| >= 1 && b[0] == LBrace then
      var members := ParseMembers(b[1..]);
      if members.Some? && members.value.1 == [] then Some(FromPairs(members.value.0)) else None
    else None
  }

  /**
    `json.Unmarshal` into a fresh `map[string]string`: `null` leaves the map
    nil, an object of strings fills it, anything else is an error.
   */
  function UnmarshalMap(b: GoString): (r: Option<GoMap>)
    ensures r == Some(Nil) <==> b == Null
    ensures r.Some? && r.value.Map? ==> |b| >= 2 && b[0] == LBrace
  {
    if b == Null then Some(Nil)
    else
      match Unmarshal(b)
      case None => None
      case Some(m) => Some(Map(m))
  }

  // ---------------------------------------------------------------------------
  // Round trip

  lemma HexRoundTrip(v: int)
    requires 0 <= v < 16
    ensures HexValue(Hex(v)) == Some(v)
  {
  }

  /** An escaped byte in front of a string body adds that byte to what is read. */
  lemma EscapedByteParses(c: byte, t: GoString, y: GoString, rest: GoString)
    requires ParseStringBody(t) == Some((y, rest))
    ensures ParseStringBody(EscapeByte(c) + t) == Some(([c] + y, rest))
  {
    var e := EscapeByte(c);
    if |e| == 1 {
      assert (e + t)[1..] == t;
    } else {
      if |e| == 6 {
        UnicodeUnescape(c, t);
      }
      assert e[1..] + t == (e + t)[1..];
      EscapeSequenceParses(e, c, t, y, rest);
    }
  }

  /** A `\u00XX` escape of an ASCII byte reads back as that byte. */
  lemma UnicodeUnescape(c: byte, t: GoString)
    requires c < 128
    ensures Unescape([117, 48, 48, Hex(c / 16), Hex(c % 16)] + t) == Some((c, 5))
  {
    var u := [117, 48, 48, Hex(c / 16), Hex(c % 16)] + t;
    HexRoundTrip(c / 16);
    HexRoundTrip(c % 16);
    assert u[1..5] == [48, 48, Hex(c / 16), Hex(c % 16)];
    assert HexNumber(u[1..5]) == Some(c);
  }

  /** An escape sequence `e` in front of a string body adds the byte it stands for. */
  lemma EscapeSequenceParses(e: GoString, c: byte, t: GoString, y: GoString, rest: GoString)
    requires |e| >= 2 && e[0] == Backslash
    requires Unescape(e[1..] + t) == Some((c, |e| - 1))
    requires ParseStringBody(t) == Some((y, rest))
    ensures ParseStringBody(e + t) == Some(([c] + y, rest))
  {
    var s := e + t;
    assert s[1..] == e[1..] + t;
    assert s[|e|..] == t;
  }

  lemma {:induction false} QuotedParses(x: GoString, rest: GoString)
    ensures ParseStringBody(Escape(x) + [DQuote] + rest) == Some((x, rest))
    decreases |x|
  {
    if x == [] {
      assert Escape(x) + [DQuote] + rest == [DQuote] + rest;
    } else {
      QuotedParses(x[1..], rest);
      assert Escape(x) + [DQuote] + rest == EscapeByte(x[0]) + (Escape(x[1..]) + [DQuote] + rest);
      EscapedByteParses(x[0], Escape(x[1..]) + [DQuote] + rest, x[1..], rest);
      assert [x[0]] + x[1..] == x;
    }
  }

  /** The key-value pairs the members of `ks` are written from, in order. */
  function Pairs(ks: seq<GoString>, m: StringMap): seq<(GoString, GoString)>
    requires forall i :: 0 <= i < |ks| ==> ks[i] in m
  {
    if ks == [] then [] else [(ks[0], m[ks[0]])] + Pairs(ks[1..], m)
  }

  lemma MemberParses(k: GoString, v: GoString, tail: GoString)
    ensures ParseMember(Member(k, v) + tail) == Some(((k, v), tail))
  {
    var b := Escape(v) + [DQuote] + tail;
    var a := Escape(k) + [DQuote] + ([Colon, DQuote] + b);
    MemberLayout(k, v, tail);
    QuotedParses(k, [Colon, DQuote] + b);
    QuotedParses(v, tail);
    MemberOfParts(a, b, k, v, tail);
  }

  /** A member followed by `tail`, regrouped around the quotes the parser looks for. */
  lemma MemberLayout(k: GoString, v: GoString, tail: GoString)
    ensures Member(k, v) + tail
         == [DQuote] + (Escape(k) + [DQuote] + ([Colon, DQuote] + (Escape(v) + [DQuote] + tail)))
  {
    assert Member(k, v) == [DQuote] + Escape(k) + [DQuote] + [Colon] + ([DQuote] + Escape(v) + [DQuote]);
    Regroup(Escape(k), Escape(v), tail);
  }

  lemma Regroup(ek: GoString, ev: GoString, tail: GoString)
    ensures [DQuote] + ek + [DQuote] + [Colon] + ([DQuote] + ev + [DQuote]) + tail
         == [DQuote] + (ek + [DQuote] + ([Colon, DQuote] + (ev + [DQuote] + tail)))
  {
  }

  lemma MemberOfParts(a: GoString, b: GoString, k: GoString, v: GoString, tail: GoString)
    requires ParseStringBody(a) == Some((k, [Colon, DQuote] + b))
    requires ParseStringBody(b) == Some((v, tail))
    ensures ParseMember([DQuote] + a) == Some(((k, v), tail))
  {
    assert ([DQuote] + a)[1..] == a;
    assert ([Colon, DQuote] + b)[2..] == b;
  }

  lemma {:induction false} MembersParse(ks: seq<GoString>, m: StringMap, rest: GoString)
    requires |ks| >= 1
    requires forall i :: 0 <= i < |ks| ==> ks[i] in m
    ensures ParseMembers(Members(ks, m) + [RBrace] + rest) == Some((Pairs(ks, m), rest))
    decreases |ks|
  {
    if |ks| == 1 {
      OneMemberParses(ks, m, rest);
    } else {
      MembersParse(ks[1..], m, rest);
      MoreMembersParse(ks, m, rest);
    }
  }

  lemma OneMemberParses(ks: seq<GoString>, m: StringMap, rest: GoString)
    requires |ks| == 1 && ks[0] in m
    ensures ParseMembers(Members(ks, m) + [RBrace] + rest) == Some((Pairs(ks, m), rest))
  {
    var k, v := ks[0], m[ks[0]];
    assert Members(ks, m) + [RBrace] + rest == Member(k, v) + ([RBrace] + rest);
    MemberParses(k, v, [RBrace] + rest);
    LastMember(Member(k, v) + ([RBrace] + rest), (k, v), rest);
    assert Pairs(ks, m) == [(k, v)] by {
      assert ks[1..] == [];
    }
  }

  /** The first of several members, parsed in front of the others. */
  lemma MoreMembersParse(ks: seq<GoString>, m: StringMap, rest: GoString)
    requires |ks| >= 2
    requires forall i :: 0 <= i < |ks| ==> ks[i] in m
    requires ParseMembers(Members(ks[1..], m) + [RBrace] + rest) == Some((Pairs(ks[1..], m), rest))
    ensures ParseMembers(Members(ks, m) + [RBrace] + rest) == Some((Pairs(ks, m), rest))
  {
    var k, v := ks[0], m[ks[0]];
    var t := Members(ks[1..], m) + [RBrace] + rest;
    MembersLayout(ks, m, rest);
    MemberParses(k, v, [Comma] + t);
    NextMember(Member(k, v) + ([Comma] + t), (k, v), t, Pairs(ks[1..], m), rest);
    assert Pairs(ks, m) == [(k, v)] + Pairs(ks[1..], m);
  }

  lemma MembersLayout(ks: seq<GoString>, m: StringMap, rest: GoString)
    requires |ks| >= 2
    requires forall i :: 0 <= i < |ks| ==> ks[i] in m
    ensures Members(ks, m) + [RBrace] + rest
         == Member(ks[0], m[ks[0]]) + ([Comma] + (Members(ks[1..], m) + [RBrace] + rest))
  {
    assert Members(ks, m) == Member(ks[0], m[ks[0]]) + [Comma] + Members(ks[1..], m);
    Regroup3(Member(ks[0], m[ks[0]]), Members(ks[1..], m), rest);
  }

  lemma Regroup3(a: GoString, b: GoString, rest: GoString)
    ensures a + [Comma] + b + [RBrace] + rest == a + ([Comma] + (b + [RBrace] + rest))
  {
  }

  lemma LastMember(s: GoString, kv: (GoString, GoString), rest: GoString)
    requires ParseMember(s) == Some((kv, [RBrace] + rest))
    ensures ParseMembers(s) == Some(([kv], rest))
  {
    assert ([RBrace] + rest)[1..] == rest;
  }

  lemma NextMember(s: GoString, kv: (GoString, GoString), t: GoString, ps: seq<(GoString, GoString)>, rest: GoString)
    requires ParseMember(s) == Some((kv, [Comma] + t))
    requires ParseMembers(t) == Some((ps, rest))
    ensures ParseMembers(s) == Some(([kv] + ps, rest))
  {
    assert ([Comma] + t)[1..] == t;
  }

  lemma {:induction false} FromPairsOfPairs(ks: seq<GoString>, m: StringMap)
    requires forall i :: 0 <= i < |ks| ==> ks[i] in m
    ensures FromPairs(Pairs(ks, m)) == map k | k in ks :: m[k]
    decreases |ks|
  {
    if ks != [] {
      FromPairsOfPairs(ks[1..], m);
      var ps := Pairs(ks, m);
      assert ps[0] == (ks[0], m[ks[0]]) && ps[1..] == Pairs(ks[1..], m);
      assert forall k :: k in ks <==> k == ks[0] || k in ks[1..];
    }
  }

  /** Unmarshalling what Marshal wrote gives the map back. */
  lemma MarshalRoundTrip(m: StringMap)
    ensures Unmarshal(Marshal(m)) == Some(m)
  {
    if m == map[] {
      EmptyRoundTrip(m);
    } else {
      var ks := SortedKeys(m.Keys);
      assert ks != [] by {
        var k :| k in m.Keys;
        assert k in ks;
      }
      ParsesToPairs(m, ks);
      PairsRebuildMap(m, ks);
    }
  }

  /** Unmarshalling what MarshalMap wrote gives the map back, nil included. */
  lemma MarshalMapRoundTrip(m: GoMap)
    ensures UnmarshalMap(MarshalMap(m)) == Some(m)
  {
    if m.Map? {
      MarshalRoundTrip(m.entries);
    }
  }

  /** Storing the pairs of all of a map's keys rebuilds the map. */
  lemma PairsRebuildMap(m: StringMap, ks: seq<GoString>)
    requires forall k :: k in ks <==> k in m
    ensures FromPairs(Pairs(ks, m)) == m
  {
    FromPairsOfPairs(ks, m);
    AllKeys(ks, m);
  }

  lemma EmptyRoundTrip(m: StringMap)
    requires m == map[]
    ensures Unmarshal(Marshal(m)) == Some(m)
  {
    assert SortedKeys(m.Keys) == [];
    assert Marshal(m) == [LBrace, RBrace];
  }

  /** The JSON of a non-empty map parses to the pairs of its sorted keys. */
  lemma ParsesToPairs(m: StringMap, ks: seq<GoString>)
    requires ks == SortedKeys(m.Keys) && ks != []
    ensures Unmarshal(Marshal(m)) == Some(FromPairs(Pairs(ks, m)))
  {
    var t := Members(ks, m) + [RBrace];
    assert Marshal(m) == [LBrace] + t;
    MembersParse(ks, m, []);
    assert t == Members(ks, m) + [RBrace] + [];
    ObjectOfMembers(t, Pairs(ks, m));
  }

  lemma AllKeys(ks: seq<GoString>, m: StringMap)
    requires forall k :: k in ks <==> k in m
    ensures (map k | k in ks :: m[k]) == m
  {
  }

  lemma ObjectOfMembers(t: GoString, ps: seq<(GoString, GoString)>)
    requires ParseMembers(t) == Some((ps, []))
    ensures Unmarshal([LBrace] + t) == Some(FromPairs(ps))
  {
    assert ([LBrace] + t)[1..] == t;
  }
}
