/** JavaScript value semantics that the forms application relies on:
    optional values and truthiness, `String.prototype.trim` and the regular
    expression class `\s`, ASCII case folding, `includes`, decimal rendering
    of integers, and plain objects whose key order `Object.entries` exposes. */
module Js {

  datatype Option<+T> = None | Some(value: T)

  /** A possibly missing string is truthy when it is present and non-empty. */
  predicate Truthy(s: Option<string>)
  {
    s.Some? && s.value != ""
  }

  /** `s || fallback` for a possibly missing string. */
  function OrElse(s: Option<string>, fallback: string): string
  {
    if Truthy(s) then s.value else fallback
  }

  /** `x || fallback` for any other possibly missing value (only absence is falsy). */
  function GetOr<T>(x: Option<T>, fallback: T): T
  {
    if x.Some? then x.value else fallback
  }

  // ---------------------------------------------------------------------
  // Whitespace and trim

  /** The characters that `\s` matches and that `trim` removes
      (WhiteSpace and LineTerminator of ECMA-262). */
  predicate IsSpace(c: char)
  {
    c == ' ' || c == '\t' || c == '\n' || c == '\r' || c == '\U{000B}' || c == '\U{000C}'
    || c == '\U{00A0}' || c == '\U{1680}' || ('\U{2000}' <= c <= '\U{200A}')
    || c == '\U{2028}' || c == '\U{2029}' || c == '\U{202F}' || c == '\U{205F}'
    || c == '\U{3000}' || c == '\U{FEFF}'
  }

  predicate AllSpace(s: string)
  {
    forall i :: 0 <= i < |s| ==> IsSpace(s[i])
  }

  function TrimStart(s: string): (r: string)
    ensures |r| <= |s| && r == s[|s| - |r|..]
    ensures AllSpace(s[..|s| - |r|])
    ensures r != "" ==> !IsSpace(r[0])
  {
    if |s| > 0 && IsSpace(s[0]) then
      var p := s[1..];
      var r := TrimStart(p);
      assert p[|p| - |r|..] == s[|s| - |r|..];
      var q := s[..|s| - |r|];
      assert AllSpace(q) by {
        forall i | 0 <= i < |q| ensures IsSpace(q[i]) {
          if i > 0 {
            assert q[i] == p[..|p| - |r|][i - 1];
          }
        }
      }
      r
    else s
  }

  function TrimEnd(s: string): (r: string)
    ensures |r| <= |s| && r == s[..|r|]
    ensures AllSpace(s[|r|..])
    ensures r != "" ==> !IsSpace(r[|r| - 1])
  {
    if |s| > 0 && IsSpace(s[|s| - 1]) then
      var p := s[..|s| - 1];
      var r := TrimEnd(p);
      assert p[..|r|] == s[..|r|];
      assert AllSpace(s[|r|..]) by {
        forall i | 0 <= i < |s| - |r| ensures IsSpace(s[|r|..][i]) {
          if i < |s| - 1 - |r| {
            assert s[|r|..][i] == p[|r|..][i];
          }
        }
      }
      r
    else s
  }

  /** `String.prototype.trim`. */
  function Trim(s: string): string
  {
    TrimEnd(TrimStart(s))
  }

  /** `s.trim() === ''` holds exactly for the strings made only of whitespace. */
  lemma TrimEmptyIffAllSpace(s: string)
    ensures Trim(s) == "" <==> AllSpace(s)
  {
    var t := TrimStart(s);
    var n := |s| - |t|;
    if |t| > 0 {
      assert !IsSpace(s[n]);
    }
    if Trim(s) == "" {
      assert t[0..] == t;
      assert t == "";
      assert s[..n] == s;
    }
  }

  // ---------------------------------------------------------------------
  // Case folding and substring search

  /** Lower-cases the ASCII letters and leaves every other character alone. */
  function AsciiLower(c: char): char
  {
    if 'A' <= c <= 'Z' then (c as int - 'A' as int + 'a' as int) as char else c
  }

  /** `toLowerCase`, restricted to ASCII letters. */
  function ToLower(s: string): (r: string)
    ensures |r| == |s|
    ensures forall i :: 0 <= i < |s| ==> r[i] == AsciiLower(s[i])
  {
    seq(|s|, i requires 0 <= i < |s| => AsciiLower(s[i]))
  }

  /** Lower-casing leaves no upper-case letter behind, and it leaves a text
      unchanged exactly when the text has none. Two texts have the same
      lower case exactly when they agree up to the case of their letters. */
  lemma ToLowerFixedPoints(s: string, t: string)
    ensures forall i :: 0 <= i < |s| ==> !('A' <= ToLower(s)[i] <= 'Z')
    ensures ToLower(s) == s <==> forall i :: 0 <= i < |s| ==> !('A' <= s[i] <= 'Z')
    ensures ToLower(s) == ToLower(t) <==>
      |s| == |t| && forall i :: 0 <= i < |s| ==> s[i] == t[i] || SameLetter(s[i], t[i])
  {
    if |s| == |t| && forall i :: 0 <= i < |s| ==> s[i] == t[i] || SameLetter(s[i], t[i]) {
      forall i | 0 <= i < |s| ensures ToLower(s)[i] == ToLower(t)[i] {
        if s[i] != t[i] {
          assert SameLetter(s[i], t[i]);
        }
      }
    }
    if ToLower(s) == ToLower(t) {
      assert |s| == |t|;
      forall i | 0 <= i < |s| ensures s[i] == t[i] || SameLetter(s[i], t[i]) {
        assert AsciiLower(s[i]) == AsciiLower(t[i]);
      }
    }
  }

  /** The same ASCII letter in its two cases. */
  predicate SameLetter(c: char, d: char)
  {
    ('A' <= c <= 'Z' && d as int == c as int + 32) || ('A' <= d <= 'Z' && c as int == d as int + 32)
  }

  /** `s.includes(t)`: t occurs in s at some position. */
  predicate OccursAt(s: string, t: string, i: int)
  {
    0 <= i && i + |t| <= |s| && s[i..i + |t|] == t
  }

  /** `s.includes(t)`. */
  function Includes(s: string, t: string): bool
  {
    exists i | 0 <= i <= |s| - |t| :: OccursAt(s, t, i)
  }

  // ---------------------------------------------------------------------
  // Decimal rendering

  predicate IsDigit(c: char)
  {
    '0' <= c <= '9'
  }

  function DigitChar(d: nat): (c: char)
    requires d < 10
    ensures IsDigit(c)
  {
    ('0' as int + d) as char
  }

  /** The decimal rendering of a natural number, as `String(n)` and template
      literals produce it. */
  function NatToString(n: nat): (r: string)
    ensures |r| > 0
    ensures forall i :: 0 <= i < |r| ==> IsDigit(r[i])
    decreases n
  {
    if n < 10 then [DigitChar(n)] else NatToString(n / 10) + [DigitChar(n % 10)]
  }

  /** `String(i)` for an integer. */
  function IntToString(i: int): string
  {
    if i < 0 then "-" + NatToString(-i) else NatToString(i)
  }

  /** The value of a string of decimal digits. */
  function DecimalValue(s: string): nat
    requires forall i :: 0 <= i < |s| ==> IsDigit(s[i])
  {
    if |s| == 0 then 0
    else
      assert IsDigit(s[|s| - 1]);
      DecimalValue(s[..|s| - 1]) * 10 + (s[|s| - 1] as int - '0' as int)
  }

  /** Reading a rendered natural number back gives the number. */
  lemma {:induction false} NatToStringRoundTrip(n: nat)
    ensures DecimalValue(NatToString(n)) == n
    decreases n
  {
    var s := NatToString(n);
    if n >= 10 {
      NatToStringRoundTrip(n / 10);
      assert s[..|s| - 1] == NatToString(n / 10);
    } else {
      assert s[..|s| - 1] == [];
    }
  }

  /** The value of an optionally signed decimal rendering. */
  function SignedDecimalValue(s: string): int
    requires |s| > 0
    requires forall i :: (0 < i < |s| || (i == 0 && s[0] != '-')) ==> IsDigit(s[i])
  {
    if s[0] == '-' then -(DecimalValue(s[1..]) as int) else DecimalValue(s)
  }

  /** Reading a rendered integer back gives the integer, so distinct
      integers render differently. */
  lemma IntToStringRoundTrip(i: int)
    ensures var s := IntToString(i);
      |s| > 0 && (forall j :: (0 < j < |s| || (j == 0 && s[0] != '-')) ==> IsDigit(s[j])) && SignedDecimalValue(s) == i
  {
    if i < 0 {
      NegativeRoundTrip(i);
    } else {
      NatToStringRoundTrip(i);
    }
  }

  lemma NegativeRoundTrip(i: int)
    requires i < 0
    ensures var s := IntToString(i);
      |s| > 0 && (forall j :: (0 < j < |s| || (j == 0 && s[0] != '-')) ==> IsDigit(s[j])) && SignedDecimalValue(s) == i
  {
    var t := NatToString(-i);
    var s := "-" + t;
    assert IntToString(i) == s;
    assert s[1..] == t;
    forall j | 0 < j < |s| ensures IsDigit(s[j]) {
      assert s[j] == t[j - 1];
    }
    assert DecimalValue(t) == -i by {
      NatToStringRoundTrip(-i);
    }
  }

  // ---------------------------------------------------------------------
  // Joining and `String(value)`

  /** `parts.join(sep)`. */
  function Join(parts: seq<string>, sep: string): (r: string)
    ensures |parts| == 0 ==> r == ""
    ensures |parts| == 1 ==> r == parts[0]
    ensures |parts| > 1 ==> r == Join(parts[..|parts| - 1], sep) + sep + parts[|parts| - 1]
  {
    if |parts| == 0 then ""
    else if |parts| == 1 then parts[0]
    else Join(parts[..|parts| - 1], sep) + sep + parts[|parts| - 1]
  }

  /** The parts' lengths together, one more separator between each pair. */
  function TotalLength(parts: seq<string>): nat
  {
    if |parts| == 0 then 0 else TotalLength(parts[..|parts| - 1]) + |parts[|parts| - 1]|
  }

  /** `join` puts the separator between each pair of parts and nowhere else:
      its length is the parts' lengths plus |parts| - 1 separators. */
  lemma {:induction false} JoinLength(parts: seq<string>, sep: string)
    ensures |parts| == 0 ==> |Join(parts, sep)| == 0
    ensures |parts| > 0 ==> |Join(parts, sep)| == TotalLength(parts) + (|parts| - 1) * |sep|
    decreases |parts|
  {
    var n := |parts|;
    if n > 1 {
      var p, last := parts[..n - 1], parts[n - 1];
      JoinLength(p, sep);
      assert |Join(parts, sep)| == |Join(p, sep)| + |sep| + |last|;
      assert (n - 2) * |sep| + |sep| == (n - 1) * |sep|;
    }
  }

  /** A value that a JSON body can carry. Numbers are integers here. */
  datatype JsValue =
    | Str(s: string)
    | Int(i: int)
    | Bool(b: bool)
    | Null
    | Arr(elems: seq<JsValue>)
    | Obj(props: seq<(string, JsValue)>)

  /** `String(v)`. An array renders as its elements joined with ',', a null
      element as the empty string; every object as `[object Object]`. */
  function ToJsString(v: JsValue): string
  {
    match v
    case Str(s) => s
    case Int(i) => IntToString(i)
    case Bool(b) => if b then "true" else "false"
    case Null => "null"
    case Arr(a) => Join(seq(|a|, i requires 0 <= i < |a| => if a[i].Null? then "" else ToJsString(a[i])), ",")
    case Obj(_) => "[object Object]"
  }

  /** `!!v`: the empty string, 0, false and null are the falsy values. */
  predicate IsTruthy(v: JsValue)
  {
    match v
    case Str(s) => s != ""
    case Int(i) => i != 0
    case Bool(b) => b
    case Null => false
    case Arr(_) => true
    case Obj(_) => true
  }

  // ---------------------------------------------------------------------
  // Plain objects with insertion-ordered keys

  /** A plain JavaScript object as its own enumerable properties in insertion
      order, which is the order `Object.entries` reports. */
  type Entries<V> = seq<(string, V)>

  predicate HasKey<V>(o: Entries<V>, k: string)
  {
    exists i :: 0 <= i < |o| && o[i].0 == k
  }

  predicate UniqueKeys<V>(o: Entries<V>)
  {
    forall i, j :: 0 <= i < j < |o| ==> o[i].0 != o[j].0
  }

  /** `o[k]`, or None when the property is missing. */
  function Get<V(==)>(o: Entries<V>, k: string): (r: Option<V>)
    ensures r.Some? <==> HasKey(o, k)
    ensures r.Some? ==> exists i :: 0 <= i < |o| && o[i] == (k, r.value)
  {
    if |o| == 0 then None
    else if o[0].0 == k then Some(o[0].1)
    else
      var r := Get(o[1..], k);
      assert HasKey(o[1..], k) <==> HasKey(o, k) by {
        if HasKey(o, k) {
          var i :| 0 <= i < |o| && o[i].0 == k;
          assert o[1..][i - 1].0 == k;
        }
        if HasKey(o[1..], k) {
          var i :| 0 <= i < |o[1..]| && o[1..][i].0 == k;
          assert o[i + 1].0 == k;
        }
      }
      if r.Some? then
        var i :| 0 <= i < |o[1..]| && o[1..][i] == (k, r.value);
        assert o[i + 1] == (k, r.value);
        r
      else r
  }

  /** `o[k] = v`: an existing property keeps its position, a new one goes last. */
  function Put<V(==)>(o: Entries<V>, k: string, v: V): (r: Entries<V>)
    ensures HasKey(o, k) ==> |r| == |o|
    ensures !HasKey(o, k) ==> r == o + [(k, v)]
    ensures forall i :: 0 <= i < |o| ==> r[i].0 == o[i].0
    ensures forall i :: 0 <= i < |o| && o[i].0 != k ==> r[i] == o[i]
    ensures forall i :: 0 <= i < |r| && r[i].0 == k ==> r[i].1 == v
  {
    if HasKey(o, k) then
      seq(|o|, i requires 0 <= i < |o| => if o[i].0 == k then (k, v) else o[i])
    else
      o + [(k, v)]
  }

  /** Reading back a property just written gives the written value and leaves
      every other property as it was. */
  lemma GetPut<V>(o: Entries<V>, k: string, v: V, k': string)
    requires UniqueKeys(o)
    ensures UniqueKeys(Put(o, k, v))
    ensures Get(Put(o, k, v), k') == if k' == k then Some(v) else Get(o, k')
  {
    var r := Put(o, k, v);
    assert UniqueKeys(r);
    if k' == k {
      var i :| 0 <= i < |r| && r[i].0 == k by {
        if HasKey(o, k) {
          var i :| 0 <= i < |o| && o[i].0 == k;
          assert r[i].0 == k;
        } else {
          assert r[|o|].0 == k;
        }
      }
      GetAt(r, k, i);
    } else if HasKey(o, k') {
      var i :| 0 <= i < |o| && o[i].0 == k';
      GetAt(o, k', i);
      GetAt(r, k', i);
    } else {
      assert !HasKey(r, k');
    }
  }

  /** Writing a property twice is writing it once with the second value. */
  lemma PutPut<V>(o: Entries<V>, k: string, v: V, w: V)
    ensures Put(Put(o, k, v), k, w) == Put(o, k, w)
  {
    if !HasKey(o, k) {
      assert Put(o, k, v)[|o|].0 == k;
    }
  }

  /** With unique keys, `Get` finds the value at the key's only position. */
  lemma {:induction false} GetAt<V>(o: Entries<V>, k: string, i: int)
    requires UniqueKeys(o)
    requires 0 <= i < |o| && o[i].0 == k
    ensures Get(o, k) == Some(o[i].1)
  {
    if i > 0 {
      assert o[1..][i - 1] == o[i];
      GetAt(o[1..], k, i - 1);
    }
  }
}
