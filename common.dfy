/** Values and sequence operations shared by the models of the Scalix
    administration scripts: an Option type, bytes, and the handful of
    Python `str`/`bytes` methods the scripts rely on (`in`, `startswith`,
    `endswith`, `join`, `split`, `strip`). */
module Common {

  datatype Option<+T> = None | Some(value: T)

  datatype Result<+T, +E> = Ok(value: T) | Err(error: E)

  /** One octet of a Python `bytes` value. */
  newtype byte = b: int | 0 <= b < 0x100

  type Bytes = seq<byte>

  /** The bytes that the ASCII literal `b"..."` denotes. */
  function Ascii(s: string): (r: Bytes)
    requires forall i :: 0 <= i < |s| ==> s[i] as int < 0x80
    ensures |r| == |s|
    ensures forall i :: 0 <= i < |s| ==> r[i] as int == s[i] as int
  {
    seq(|s|, i requires 0 <= i < |s| => s[i] as int as byte)
  }

  predicate StartsWith<T(==)>(s: seq<T>, prefix: seq<T>) {
    |prefix| <= |s| && s[..|prefix|] == prefix
  }

  predicate EndsWith<T(==)>(s: seq<T>, suffix: seq<T>) {
    |suffix| <= |s| && s[|s| - |suffix|..] == suffix
  }

  /** `p` occurs in `s` starting at index `i`. */
  predicate OccursAt<T(==)>(s: seq<T>, p: seq<T>, i: nat) {
    i + |p| <= |s| && s[i..i + |p|] == p
  }

  /** The first index at or after `from` where `p` occurs in `s` (`s.find(p, from)`). */
  function Find<T(==)>(s: seq<T>, p: seq<T>, from: nat): (r: Option<nat>)
    ensures r.Some? ==> from <= r.value && OccursAt(s, p, r.value)
    ensures r.Some? ==> forall j :: from <= j < r.value ==> !OccursAt(s, p, j)
    ensures r.None? ==> forall j :: from <= j ==> !OccursAt(s, p, j)
    decreases |s| - from
  {
    if from + |p| > |s| then None
    else if OccursAt(s, p, from) then Some(from)
    else Find(s, p, from + 1)
  }

  /** Python's `p in s` for strings and bytes. */
  predicate Contains<T(==)>(s: seq<T>, p: seq<T>) {
    Find(s, p, 0).Some?
  }

  lemma ContainsAt<T>(s: seq<T>, p: seq<T>, i: nat)
    requires OccursAt(s, p, i)
    ensures Contains(s, p)
  {
  }

  lemma ContainsSelf<T>(s: seq<T>)
    ensures Contains(s, s)
  {
    assert OccursAt(s, s, 0);
  }

  /** `sep.join(parts)`. */
  function Join<T>(parts: seq<seq<T>>, sep: seq<T>): seq<T>
    decreases |parts|
  {
    if |parts| == 0 then []
    else if |parts| == 1 then parts[0]
    else parts[0] + sep + Join(parts[1..], sep)
  }

  /** `s.split(c)` for a single separator element `c`: always at least one piece. */
  function Split<T(==)>(s: seq<T>, c: T): (pieces: seq<seq<T>>)
    ensures |pieces| > 0
    ensures forall k, j :: 0 <= k < |pieces| && 0 <= j < |pieces[k]| ==> pieces[k][j] != c
    decreases |s|
  {
    if s == [] then [[]]
    else
      var rest := Split(s[1..], c);
      if s[0] == c then [[]] + rest
      else [[s[0]] + rest[0]] + rest[1..]
  }

  /** Splitting on `c` and joining with `c` gives back the original. */
  lemma {:induction false} JoinSplit<T>(s: seq<T>, c: T)
    ensures Join(Split(s, c), [c]) == s
    decreases |s|
  {
    if s != [] {
      var rest := Split(s[1..], c);
      JoinSplit(s[1..], c);
      if s[0] != c {
        if |rest| == 1 {
          assert Split(s, c) == [[s[0]] + rest[0]];
        } else {
          assert Split(s, c) == [[s[0]] + rest[0]] + rest[1..];
          assert Join(rest, [c]) == rest[0] + [c] + Join(rest[1..], [c]);
        }
      }
    }
  }

  /** Joining pieces that do not contain `c` with `c` and splitting on `c`
      gives back the pieces. */
  lemma {:induction false} SplitJoin<T>(parts: seq<seq<T>>, c: T)
    requires |parts| > 0
    requires forall k, j :: 0 <= k < |parts| && 0 <= j < |parts[k]| ==> parts[k][j] != c
    ensures Split(Join(parts, [c]), c) == parts
    decreases |parts|, |parts[0]|
  {
    if |parts| == 1 {
      SplitNoSeparator(parts[0], c);
    } else if parts[0] == [] {
      var tail := Join(parts[1..], [c]);
      assert Join(parts, [c]) == [c] + tail;
      SplitJoin(parts[1..], c);
      assert ([c] + tail)[1..] == tail;
    } else {
      var x := parts[0][0];
      var shorter := [parts[0][1..]] + parts[1..];
      assert Join(parts, [c]) == [x] + Join(shorter, [c]) by {
        assert Join(shorter, [c]) == parts[0][1..] + [c] + Join(parts[1..], [c]);
        assert parts[0] == [x] + parts[0][1..];
      }
      SplitJoin(shorter, c);
      assert ([x] + Join(shorter, [c]))[1..] == Join(shorter, [c]);
      assert [x] + shorter[0] == parts[0];
    }
  }

  lemma {:induction false} SplitNoSeparator<T>(s: seq<T>, c: T)
    requires forall j :: 0 <= j < |s| ==> s[j] != c
    ensures Split(s, c) == [s]
    decreases |s|
  {
    if s != [] {
      SplitNoSeparator(s[1..], c);
      assert [s[0]] + s[1..] == s;
    }
  }

  /** `s` without the leading elements that satisfy `drop`. */
  function TrimLeft<T>(s: seq<T>, drop: T -> bool): seq<T>
    decreases |s|
  {
    if s != [] && drop(s[0]) then TrimLeft(s[1..], drop) else s
  }

  /** `s` without the trailing elements that satisfy `drop`. */
  function TrimRight<T>(s: seq<T>, drop: T -> bool): seq<T>
    decreases |s|
  {
    if s != [] && drop(s[|s| - 1]) then TrimRight(s[..|s| - 1], drop) else s
  }

  /** Python's `strip`: both ends trimmed. */
  function Trim<T>(s: seq<T>, drop: T -> bool): seq<T> {
    TrimRight(TrimLeft(s, drop), drop)
  }

  predicate All<T>(s: seq<T>, p: T -> bool) {
    forall j :: 0 <= j < |s| ==> p(s[j])
  }

  /** `TrimLeft` removes the longest prefix of dropped elements. */
  lemma TrimLeftRemovesPrefix<T>(s: seq<T>, drop: T -> bool)
    ensures var r := TrimLeft(s, drop);
      |r| <= |s| && s == s[..|s| - |r|] + r && All(s[..|s| - |r|], drop) && (r != [] ==> !drop(r[0]))
  {
    TrimLeftKeepsSuffix(s, drop);
    var r := TrimLeft(s, drop);
    var pre := s[..|s| - |r|];
    assert s == pre + s[|s| - |r|..];
    forall j | 0 <= j < |pre|
      ensures drop(pre[j])
    {
      assert pre[j] == s[j];
    }
  }

  /** `TrimLeft` keeps a suffix, and every element before it is dropped. */
  lemma {:induction false} TrimLeftKeepsSuffix<T>(s: seq<T>, drop: T -> bool)
    ensures |TrimLeft(s, drop)| <= |s|
    ensures TrimLeft(s, drop) == s[|s| - |TrimLeft(s, drop)|..]
    ensures forall j :: 0 <= j < |s| - |TrimLeft(s, drop)| ==> drop(s[j])
    ensures TrimLeft(s, drop) != [] ==> !drop(s[|s| - |TrimLeft(s, drop)|])
    decreases |s|
  {
    if s != [] && drop(s[0]) {
      var t := s[1..];
      TrimLeftKeepsSuffix(t, drop);
      assert TrimLeft(s, drop) == TrimLeft(t, drop);
      var k := |TrimLeft(t, drop)|;
      assert t[|t| - k..] == s[|s| - k..];
      assert forall j :: 0 <= j < |t| - k ==> t[j] == s[j + 1];
    } else {
      assert s[0..] == s;
    }
  }

  /** `TrimRight` removes the longest suffix of dropped elements. */
  lemma TrimRightRemovesSuffix<T>(s: seq<T>, drop: T -> bool)
    ensures var r := TrimRight(s, drop);
      |r| <= |s| && s == r + s[|r|..] && All(s[|r|..], drop) && (r != [] ==> !drop(r[|r| - 1]))
  {
    TrimRightKeepsPrefix(s, drop);
    var r := TrimRight(s, drop);
    assert s == s[..|r|] + s[|r|..];
    forall j | 0 <= j < |s| - |r|
      ensures drop(s[|r|..][j])
    {
      assert s[|r|..][j] == s[|r| + j];
    }
  }

  /** `TrimRight` keeps a prefix, and every element after it is dropped. */
  lemma {:induction false} TrimRightKeepsPrefix<T>(s: seq<T>, drop: T -> bool)
    ensures |TrimRight(s, drop)| <= |s|
    ensures TrimRight(s, drop) == s[..|TrimRight(s, drop)|]
    ensures forall j :: |TrimRight(s, drop)| <= j < |s| ==> drop(s[j])
    ensures TrimRight(s, drop) != [] ==> !drop(s[|TrimRight(s, drop)| - 1])
    decreases |s|
  {
    if s != [] && drop(s[|s| - 1]) {
      var t := s[..|s| - 1];
      TrimRightKeepsPrefix(t, drop);
      assert TrimRight(s, drop) == TrimRight(t, drop);
      var k := |TrimRight(t, drop)|;
      assert t[..k] == s[..k];
      assert forall j :: k <= j < |t| ==> t[j] == s[j];
    } else {
      assert s[..|s|] == s;
    }
  }

  /** `strip` removes dropped elements from both ends and nothing else, and
      what is left neither starts nor ends with one. */
  lemma TrimShape<T>(s: seq<T>, drop: T -> bool)
    ensures var r := Trim(s, drop);
      (r != [] ==> !drop(r[0]) && !drop(r[|r| - 1])) &&
      exists pre, post :: s == pre + r + post && All(pre, drop) && All(post, drop)
  {
    var pre, post := TrimPieces(s, drop);
  }

  /** What `strip` removes: a prefix and a suffix of dropped elements. */
  lemma TrimPieces<T>(s: seq<T>, drop: T -> bool) returns (pre: seq<T>, post: seq<T>)
    ensures var r := Trim(s, drop);
      (r != [] ==> !drop(r[0]) && !drop(r[|r| - 1])) &&
      s == pre + r + post && All(pre, drop) && All(post, drop)
  {
    var left := TrimLeft(s, drop);
    var r := TrimRight(left, drop);
    TrimLeftRemovesPrefix(s, drop);
    TrimRightRemovesSuffix(left, drop);
    pre, post := s[..|s| - |left|], left[|r|..];
    AppendAssoc(pre, r, post);
    if r != [] {
      assert r[0] == left[0];
    }
  }

  lemma AppendAssoc<T>(a: seq<T>, b: seq<T>, c: seq<T>)
    ensures a + (b + c) == (a + b) + c
  {
  }

  /** ASCII whitespace, the set `bytes.strip()` and the `\s` of a bytes
      pattern use: space, `\t`, `\n`, `\r`, `\x0b`, `\x0c`. */
  predicate IsAsciiSpace(b: byte) {
    b == 0x20 || 0x09 <= b <= 0x0d
  }

  predicate IsAsciiDigit(b: byte) {
    0x30 <= b <= 0x39
  }

  /** Characters for which `str.isspace()` holds, restricted to the Latin-1
      range (the other Unicode separators are not modelled). */
  predicate IsSpaceChar(c: char) {
    var n := c as int;
    n == 0x20 || 0x09 <= n <= 0x0d || 0x1c <= n <= 0x1f || n == 0x85 || n == 0xa0
  }

  /** `str.strip()` with no argument. */
  function StripSpace(s: string): string {
    Trim(s, IsSpaceChar)
  }

  /** The value of a non-empty run of ASCII digits, most significant first (`int(b"123")`). */
  function DecimalValue(digits: Bytes): nat
    decreases |digits|
  {
    if digits == [] then 0
    else DecimalValue(digits[..|digits| - 1]) * 10 + (digits[|digits| - 1] as int - 0x30) % 10
  }

  /** The decimal digits of `n`, as `str(n).encode()` writes them. */
  function DecimalDigits(n: nat): (r: Bytes)
    ensures |r| > 0 && forall j :: 0 <= j < |r| ==> IsAsciiDigit(r[j])
    decreases n
  {
    if n < 10 then [(0x30 + n) as byte] else DecimalDigits(n / 10) + [(0x30 + n % 10) as byte]
  }

  lemma {:induction false} DecimalRoundTrip(n: nat)
    ensures DecimalValue(DecimalDigits(n)) == n
    decreases n
  {
    var d := DecimalDigits(n);
    if n >= 10 {
      DecimalRoundTrip(n / 10);
      assert d[..|d| - 1] == DecimalDigits(n / 10);
    }
  }
}
