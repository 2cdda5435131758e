/**
  Go strings and the two library helpers over them that the token code relies on:
  `strings.Split` with a one-byte separator, and reading a `map[string]string`
  (a missing key reads as the empty string), which may also be nil.
  A Go string is a sequence of bytes, so it is modelled as `seq<byte>`.
 */
module GoStrings {

  type byte = b: int | 0 <= b < 256

  type GoString = seq<byte>

  /** The byte `.`, the separator of the three segments of a token. */
  const Dot: byte := 46

  /** The bytes of an ASCII text literal. */
  function Ascii(s: string): (b: GoString)
    requires forall i :: 0 <= i < |s| ==> s[i] < 128 as char
    ensures |b| == |s|
    ensures forall i :: 0 <= i < |s| ==> b[i] == s[i] as int
  {
    if s == [] then [] else [s[0] as int] + Ascii(s[1..])
  }

  /**
    A `map[string]string` value: nil, or a map. Reading a nil map finds
    nothing; writing to one panics.
   */
  datatype GoMap = Nil | Map(entries: map<GoString, GoString>)

  /** Go's `m[k]` on a `map[string]string`: the empty string when `k` is absent. */
  function Lookup(m: map<GoString, GoString>, k: GoString): (v: GoString)
    ensures k in m ==> v == m[k]
    ensures k !in m ==> v == []
  {
    if k in m then m[k] else []
  }

  /** The index of the first `sep` in `s`. */
  function IndexOf(s: GoString, sep: byte): (i: nat)
    requires sep in s
    ensures i < |s| && s[i] == sep && sep !in s[..i]
  {
    if s[0] == sep then 0 else 1 + IndexOf(s[1..], sep)
  }

  /** The parts joined back with `sep` between them. */
  function Join(parts: seq<GoString>, sep: byte): GoString
    requires |parts| >= 1
  {
    if |parts| == 1 then parts[0] else parts[0] + [sep] + Join(parts[1..], sep)
  }

  /**
    `strings.Split(s, sep)`: the maximal pieces of `s` between occurrences of `sep`.
    The empty string splits into one empty part.
   */
  function Split(s: GoString, sep: byte): (parts: seq<GoString>)
    ensures |parts| >= 1
    ensures Join(parts, sep) == s
    ensures forall i :: 0 <= i < |parts| ==> sep !in parts[i]
    decreases |s|
  {
    if sep !in s then [s]
    else
      var i := IndexOf(s, sep);
      assert s == s[..i] + [sep] + s[i + 1..];
      [s[..i]] + Split(s[i + 1..], sep)
  }

  /** Splitting inverts joining: parts free of `sep` come back as they were. */
  lemma {:induction false} SplitJoin(parts: seq<GoString>, sep: byte)
    requires |parts| >= 1
    requires forall i :: 0 <= i < |parts| ==> sep !in parts[i]
    ensures Split(Join(parts, sep), sep) == parts
    decreases |parts|
  {
    if |parts| > 1 {
      var s := Join(parts, sep);
      assert s == parts[0] + [sep] + Join(parts[1..], sep);
      assert s[|parts[0]|] == sep;
      assert sep in s;
      assert IndexOf(s, sep) == |parts[0]|;
      assert s[..|parts[0]|] == parts[0];
      assert s[|parts[0]| + 1..] == Join(parts[1..], sep);
      SplitJoin(parts[1..], sep);
    } else {
      assert Join(parts, sep) == parts[0];
    }
  }

  /** Three `sep`-free pieces joined with `sep` split back into exactly those three. */
  lemma SplitThree(a: GoString, b: GoString, c: GoString, sep: byte)
    requires sep !in a && sep !in b && sep !in c
    ensures Split(a + [sep] + b + [sep] + c, sep) == [a, b, c]
  {
    JoinThree(a, b, c, sep);
    var parts := [a, b, c];
    forall i | 0 <= i < |parts|
      ensures sep !in parts[i]
    {
      if i == 0 {
        assert parts[i] == a;
      } else if i == 1 {
        assert parts[i] == b;
      } else {
        assert parts[i] == c;
      }
    }
    SplitJoin(parts, sep);
  }

  lemma JoinThree(a: GoString, b: GoString, c: GoString, sep: byte)
    ensures Join([a, b, c], sep) == a + [sep] + b + [sep] + c
  {
    assert [a, b, c][1..] == [b, c];
    assert [b, c][1..] == [c];
    assert Join([b, c], sep) == b + [sep] + c;
    assert a + [sep] + (b + [sep] + c) == a + [sep] + b + [sep] + c;
  }
}
