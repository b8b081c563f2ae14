/**
 Strings as the service uses them: the byte-wise order of Go's `sort.Strings`
 (which is code-point order on UTF-8), `strings.TrimSpace`, hexadecimal and
 decimal rendering.
 */
module Text {
  import opened Wrappers

  type Byte = b: int | 0 <= b < 256

  // ---------------------------------------------------------------- ordering

  /** Strict lexicographic order by code point. */
  predicate Before(a: string, b: string) {
    if b == "" then false
    else if a == "" then true
    else if a[0] != b[0] then a[0] < b[0]
    else Before(a[1..], b[1..])
  }

  lemma {:induction false} BeforeTotal(a: string, b: string)
    ensures Before(a, b) || a == b || Before(b, a)
  {
    if a != "" && b != "" && a[0] == b[0] {
      BeforeTotal(a[1..], b[1..]);
      assert a == [a[0]] + a[1..] && b == [b[0]] + b[1..];
    }
  }

  lemma {:induction false} BeforeAsymmetric(a: string, b: string)
    requires Before(a, b)
    ensures !Before(b, a) && a != b
  {
    if a != "" && a[0] == b[0] {
      BeforeAsymmetric(a[1..], b[1..]);
    }
  }

  lemma {:induction false} BeforeTransitive(a: string, b: string, c: string)
    requires Before(a, b) && Before(b, c)
    ensures Before(a, c)
  {
    if a != "" && a[0] == b[0] == c[0] {
      BeforeTransitive(a[1..], b[1..], c[1..]);
    }
  }

  /** The strings agree up to `k`, where the first ends or has the smaller code point. */
  predicate SplitsAt(a: string, b: string, k: nat) {
    k <= |a| && k < |b| && a[..k] == b[..k] && (k == |a| || a[k] < b[k])
  }

  /** One string comes before another exactly when it is a proper prefix or smaller where they first differ. */
  lemma {:induction false} BeforeExact(a: string, b: string)
    ensures Before(a, b) <==> exists k :: SplitsAt(a, b, k)
  {
    if b != "" && a == "" {
      assert SplitsAt(a, b, 0);
    } else if b != "" && a[0] != b[0] {
      assert a[0] < b[0] ==> SplitsAt(a, b, 0);
      assert forall k :: k > 0 && k <= |a| && k < |b| ==> a[..k][0] != b[..k][0];
    } else if b != "" {
      BeforeExact(a[1..], b[1..]);
      forall k: nat ensures SplitsAt(a, b, k + 1) <==> SplitsAt(a[1..], b[1..], k) {
        if k + 1 <= |a| && k + 1 < |b| {
          assert a[..k + 1] == [a[0]] + a[1..][..k] && b[..k + 1] == [b[0]] + b[1..][..k];
        }
      }
      assert !SplitsAt(a, b, 0);
      if k: nat :| SplitsAt(a, b, k) {
        assert SplitsAt(a[1..], b[1..], k - 1);
      }
      if k: nat :| SplitsAt(a[1..], b[1..], k) {
        assert SplitsAt(a, b, k + 1);
      }
    }
  }

  predicate StrictlySorted(ids: seq<string>) {
    forall i, j :: 0 <= i < j < |ids| ==> Before(ids[i], ids[j])
  }

  /** `ids` holds exactly the members of `keys`, once each, in order. */
  ghost predicate Lists(ids: seq<string>, keys: set<string>) {
    && StrictlySorted(ids)
    && (forall x :: x in ids <==> x in keys)
  }

  lemma {:induction false} ListsUnique(a: seq<string>, b: seq<string>, keys: set<string>)
    requires Lists(a, keys) && Lists(b, keys)
    ensures a == b
    decreases |a|
  {
    assert a != [] ==> a[0] in b;
    assert b != [] ==> b[0] in a;
    if a != [] {
      HeadsAgree(a, b, keys);
      var rest := keys - {a[0]};
      TailLists(a, keys);
      TailLists(b, keys);
      ListsUnique(a[1..], b[1..], rest);
      assert a == [a[0]] + a[1..] && b == [b[0]] + b[1..];
    }
  }

  lemma HeadsAgree(a: seq<string>, b: seq<string>, keys: set<string>)
    requires Lists(a, keys) && Lists(b, keys) && a != [] && b != []
    ensures a[0] == b[0]
  {
    assert a[0] in b && b[0] in a;
    if a[0] != b[0] {
      assert Before(b[0], a[0]) && Before(a[0], b[0]);
      BeforeAsymmetric(a[0], b[0]);
    }
  }

  lemma TailLists(a: seq<string>, keys: set<string>)
    requires Lists(a, keys) && a != []
    ensures Lists(a[1..], keys - {a[0]})
  {
    forall x ensures x in a[1..] <==> x in keys - {a[0]} {
      if x in a[1..] {
        var i :| 0 <= i < |a[1..]| && a[1..][i] == x;
        assert Before(a[0], a[i + 1]);
        BeforeAsymmetric(a[0], x);
        assert x in a;
      }
      if x in keys - {a[0]} {
        assert x in a;
        var i :| 0 <= i < |a| && a[i] == x;
        assert a[1..][i - 1] == x;
      }
    }
  }

  lemma {:induction false} ListsSize(ids: seq<string>, keys: set<string>)
    requires Lists(ids, keys)
    ensures |ids| == |keys|
  {
    if ids == [] {
      assert keys == {};
    } else {
      assert ids[0] in keys;
      TailLists(ids, keys);
      ListsSize(ids[1..], keys - {ids[0]});
    }
  }

  /** Inserts a new member at its place. */
  method InsertSorted(ids: seq<string>, x: string) returns (r: seq<string>)
    requires StrictlySorted(ids) && x !in ids
    ensures StrictlySorted(r)
    ensures forall y :: y in r <==> y in ids || y == x
  {
    var k := 0;
    while k < |ids| && Before(ids[k], x)
      invariant 0 <= k <= |ids|
      invariant forall i :: 0 <= i < k ==> Before(ids[i], x)
    {
      k := k + 1;
    }
    forall j | k <= j < |ids| ensures Before(x, ids[j]) {
      BeforeTotal(ids[k], x);
      if j > k {
        BeforeTransitive(x, ids[k], ids[j]);
      }
    }
    r := ids[..k] + [x] + ids[k..];
    assert ids == ids[..k] + ids[k..];
  }

  /** The keys of a map in `sort.Strings` order. */
  method SortedListing(keys: set<string>) returns (ids: seq<string>)
    ensures Lists(ids, keys)
  {
    ids := [];
    var rest := keys;
    while rest != {}
      invariant rest <= keys
      invariant Lists(ids, keys - rest)
      decreases |rest|
    {
      var x :| x in rest;
      ids := InsertSorted(ids, x);
      rest := rest - {x};
    }
    assert keys - rest == keys;
  }

  /** The specification counterpart of `SortedListing`. */
  ghost function Listing(keys: set<string>): (ids: seq<string>)
    ensures Lists(ids, keys)
  {
    ListingExists(keys);
    var ids :| Lists(ids, keys);
    ids
  }

  lemma {:induction false} ListingExists(keys: set<string>)
    ensures exists ids :: Lists(ids, keys)
    decreases |keys|
  {
    if keys == {} {
      assert Lists([], keys);
    } else {
      var m := Least(keys);
      ListingExists(keys - {m});
      var rest :| Lists(rest, keys - {m});
      assert forall x :: x in [m] + rest <==> x == m || x in rest;
      assert forall x :: x in rest ==> Before(m, x);
      assert Lists([m] + rest, keys);
    }
  }

  lemma {:induction false} Least(keys: set<string>) returns (m: string)
    requires keys != {}
    ensures m in keys
    ensures forall x :: x in keys && x != m ==> Before(m, x)
    decreases |keys|
  {
    var k :| k in keys;
    if keys == {k} {
      m := k;
    } else {
      var rest := keys - {k};
      assert keys == rest + {k};
      var n := Least(rest);
      BeforeTotal(k, n);
      if Before(k, n) {
        m := k;
        forall x | x in keys && x != m ensures Before(m, x) {
          if x != n {
            BeforeTransitive(k, n, x);
          }
        }
      } else {
        m := n;
      }
    }
  }

  // ---------------------------------------------------------------- trimming

  /** The code points `unicode.IsSpace` accepts. */
  predicate IsSpace(c: char) {
    || '\t' <= c <= '\r' || c == ' ' || c == '\U{85}' || c == '\U{A0}' || c == '\U{1680}'
    || '\U{2000}' <= c <= '\U{200A}' || c == '\U{2028}' || c == '\U{2029}' || c == '\U{202F}'
    || c == '\U{205F}' || c == '\U{3000}'
  }

  function TrimLeft(s: string): (r: string)
    ensures |r| <= |s|
  {
    if s != "" && IsSpace(s[0]) then TrimLeft(s[1..]) else s
  }

  function TrimRight(s: string): (r: string)
    ensures |r| <= |s|
  {
    if s != "" && IsSpace(s[|s| - 1]) then TrimRight(s[..|s| - 1]) else s
  }

  /** `strings.TrimSpace`. */
  function Trim(s: string): (r: string)
    ensures |r| <= |s|
  {
    TrimRight(TrimLeft(s))
  }

  ghost predicate AllSpace(s: string) {
    forall i :: 0 <= i < |s| ==> IsSpace(s[i])
  }

  lemma {:induction false} TrimLeftMeans(s: string)
    ensures var r := TrimLeft(s);
            s[|s| - |r|..] == r && AllSpace(s[..|s| - |r|]) && (r != "" ==> !IsSpace(r[0]))
  {
    if s != "" && IsSpace(s[0]) {
      TrimLeftMeans(s[1..]);
      var r := TrimLeft(s);
      assert s[..|s| - |r|] == [s[0]] + s[1..][..|s| - 1 - |r|];
    }
  }

  lemma {:induction false} TrimRightMeans(s: string)
    ensures var r := TrimRight(s);
            s[..|r|] == r && AllSpace(s[|r|..]) && (r != "" ==> !IsSpace(r[|r| - 1]))
  {
    if s != "" && IsSpace(s[|s| - 1]) {
      var shorter := s[..|s| - 1];
      TrimRightMeans(shorter);
      var r := TrimRight(s);
      assert s[|r|..] == shorter[|r|..] + [s[|s| - 1]];
    }
  }

  /** Trimming removes white space from both ends, all of it and nothing else. */
  lemma TrimMeans(s: string) returns (left: string, right: string)
    ensures s == left + Trim(s) + right && AllSpace(left) && AllSpace(right)
    ensures Trim(s) != "" ==> !IsSpace(Trim(s)[0]) && !IsSpace(Trim(s)[|Trim(s)| - 1])
  {
    var middle := TrimLeft(s);
    TrimLeftMeans(s);
    TrimRightMeans(middle);
    left, right := s[..|s| - |middle|], middle[|Trim(s)|..];
    assert s == left + middle && middle == Trim(s) + right;
  }

  // ------------------------------------------------------------------- hex

  function Nibble(n: int): (c: char)
    requires 0 <= n < 16
  {
    if n < 10 then ('0' as int + n) as char else ('a' as int + (n - 10)) as char
  }

  /** Value of a hexadecimal digit, in either case as `hex.DecodeString` accepts it. */
  function NibbleValue(c: char): (n: int)
    ensures -1 <= n < 16
  {
    if '0' <= c <= '9' then c as int - '0' as int
    else if 'a' <= c <= 'f' then c as int - 'a' as int + 10
    else if 'A' <= c <= 'F' then c as int - 'A' as int + 10
    else -1
  }

  lemma NibbleInverse(n: int)
    requires 0 <= n < 16
    ensures NibbleValue(Nibble(n)) == n
  {}

  /** `hex.EncodeToString`. */
  function Hex(bytes: seq<Byte>): (r: string)
    ensures |r| == 2 * |bytes|
  {
    if bytes == [] then "" else [Nibble(bytes[0] / 16), Nibble(bytes[0] % 16)] + Hex(bytes[1..])
  }

  /** `hex.DecodeString`. */
  function Unhex(s: string): Option<seq<Byte>> {
    if s == "" then Some([])
    else if |s| == 1 then None
    else
      var high, low, rest := NibbleValue(s[0]), NibbleValue(s[1]), Unhex(s[2..]);
      if high < 0 || low < 0 || rest.None? then None else Some([16 * high + low] + rest.value)
  }

  lemma {:induction false} HexRoundTrip(bytes: seq<Byte>)
    ensures Unhex(Hex(bytes)) == Some(bytes)
  {
    if bytes != [] {
      NibbleInverse(bytes[0] / 16);
      NibbleInverse(bytes[0] % 16);
      assert Hex(bytes)[2..] == Hex(bytes[1..]);
      HexRoundTrip(bytes[1..]);
      assert bytes == [bytes[0]] + bytes[1..];
    }
  }

  lemma HexInjective(a: seq<Byte>, b: seq<Byte>)
    requires Hex(a) == Hex(b)
    ensures a == b
  {
    HexRoundTrip(a);
    HexRoundTrip(b);
  }

  // ------------------------------------------------------------ byte lengths

  /** Bytes of a code point in UTF-8. */
  function Utf8Size(c: char): (n: nat)
    ensures 1 <= n <= 4
  {
    if c < '\U{80}' then 1 else if c < '\U{800}' then 2 else if c < '\U{10000}' then 3 else 4
  }

  /** What Go's `len` says of a string. */
  function ByteLength(s: string): (n: nat)
    ensures n >= |s|
  {
    if s == "" then 0 else Utf8Size(s[0]) + ByteLength(s[1..])
  }

  lemma {:induction false} ByteLengthJoin(a: string, b: string)
    ensures ByteLength(a + b) == ByteLength(a) + ByteLength(b)
  {
    if a == "" {
      assert a + b == b;
    } else {
      assert (a + b)[1..] == a[1..] + b;
      ByteLengthJoin(a[1..], b);
    }
  }

  lemma TrimNotLonger(s: string)
    ensures ByteLength(Trim(s)) <= ByteLength(s)
  {
    var left, right := TrimMeans(s);
    ByteLengthJoin(left, Trim(s));
    ByteLengthJoin(left + Trim(s), right);
  }

  lemma {:induction false} HexByteLength(bytes: seq<Byte>)
    ensures ByteLength(Hex(bytes)) == 2 * |bytes|
  {
    if bytes != [] {
      var h := Hex(bytes);
      HexByteLength(bytes[1..]);
      assert h[1..][1..] == Hex(bytes[1..]);
      assert ByteLength(h) == 1 + ByteLength(h[1..]);
    }
  }

  lemma {:induction false} HexDigits(bytes: seq<Byte>, i: nat)
    requires i < |bytes|
    ensures Hex(bytes)[2 * i] == "0123456789abcdef"[bytes[i] / 16]
    ensures Hex(bytes)[2 * i + 1] == "0123456789abcdef"[bytes[i] % 16]
  {
    NibbleDigit(bytes[0] / 16);
    NibbleDigit(bytes[0] % 16);
    if i > 0 {
      HexDigits(bytes[1..], i - 1);
    }
  }

  lemma NibbleDigit(n: int)
    requires 0 <= n < 16
    ensures Nibble(n) == "0123456789abcdef"[n]
  {}

  /** Among the ASCII characters, space, tab, line feed, vertical tab, form feed and carriage return are trimmed. */
  lemma AsciiSpace(c: char)
    requires c < '\U{80}'
    ensures IsSpace(c) <==> c in [' ', '\t', '\n', '\U{B}', '\U{C}', '\r']
  {}
}
