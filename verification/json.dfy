/** JSON-like values as the engine sees them, with Python's dict and iteration semantics.

    A Python dict keeps insertion order, and the engine's output depends on it
    (merge order of a join, the last key-field of a `keys` node), so an object is
    an association list.  Every dict the engine builds has unique keys; the
    operations below preserve that (`UniqueKeys`). */
module Json {
  import opened Errors

  datatype Value =
    | Null                       // Python None
    | Int(n: int)
    | Str(s: string)
    | Arr(items: seq<Value>)     // Python list or tuple
    | Obj(entries: seq<Entry>)   // Python dict, in insertion order

  datatype Entry = Entry(key: string, val: Value)

  /** The set of keys of a dict. */
  function KeySet(es: seq<Entry>): set<string>
  {
    set i | 0 <= i < |es| :: es[i].key
  }

  lemma KeySetCons(e: Entry, es: seq<Entry>)
    ensures KeySet([e] + es) == {e.key} + KeySet(es)
  {
    var r := [e] + es;
    forall k | k in KeySet(r) ensures k in {e.key} + KeySet(es) {
      var i :| 0 <= i < |r| && r[i].key == k;
      if i > 0 {
        assert es[i - 1].key == k;
      }
    }
    forall k | k in {e.key} + KeySet(es) ensures k in KeySet(r) {
      if k == e.key {
        assert r[0].key == k;
      } else {
        var i :| 0 <= i < |es| && es[i].key == k;
        assert r[i + 1].key == k;
      }
    }
  }

  lemma UniqueKeysCons(e: Entry, es: seq<Entry>)
    ensures UniqueKeys([e] + es) <==> e.key !in KeySet(es) && UniqueKeys(es)
  {
    var r := [e] + es;
    if UniqueKeys(r) {
      forall i, j | 0 <= i < j < |es| ensures es[i].key != es[j].key {
        assert r[i + 1] == es[i] && r[j + 1] == es[j];
      }
      forall i | 0 <= i < |es| ensures es[i].key != e.key {
        assert r[0] == e && r[i + 1] == es[i];
        assert r[0].key != r[i + 1].key;
      }
    }
    if e.key !in KeySet(es) && UniqueKeys(es) {
      forall i, j | 0 <= i < j < |r| ensures r[i].key != r[j].key {
        assert r[j] == es[j - 1];
        if i > 0 {
          assert r[i] == es[i - 1];
        }
      }
    }
  }

  lemma KeySetTail(es: seq<Entry>)
    requires |es| > 0
    ensures KeySet(es) == {es[0].key} + KeySet(es[1..])
  {
    assert es == [es[0]] + es[1..];
    KeySetCons(es[0], es[1..]);
  }

  /** Python dicts never repeat a key. */
  predicate UniqueKeys(es: seq<Entry>)
  {
    forall i, j :: 0 <= i < j < |es| ==> es[i].key != es[j].key
  }

  /** In a dict with unique keys every entry is what a lookup of its key finds. */
  lemma {:induction false} LookupUnique(es: seq<Entry>, i: int)
    requires UniqueKeys(es)
    requires 0 <= i < |es|
    ensures Lookup(es, es[i].key) == Some(es[i].val)
  {
    if i > 0 {
      assert es == [es[0]] + es[1..];
      UniqueKeysCons(es[0], es[1..]);
      assert es[1..][i - 1] == es[i];
      LookupUnique(es[1..], i - 1);
    }
  }

  /** `d.get(k)`: the value stored under `k`, if any. */
  function Lookup(es: seq<Entry>, k: string): (r: Option<Value>)
    ensures r.Some? <==> k in KeySet(es)
    ensures r.Some? ==> Entry(k, r.value) in es
  {
    if |es| == 0 then None
    else if es[0].key == k then Some(es[0].val)
    else
      KeySetTail(es);
      Lookup(es[1..], k)
  }

  /** `d[k] = v`: an existing key keeps its position, a new key goes last. */
  function Update(es: seq<Entry>, k: string, v: Value): (r: seq<Entry>)
    ensures Lookup(r, k) == Some(v)
    ensures forall k' :: k' != k ==> Lookup(r, k') == Lookup(es, k')
    ensures KeySet(r) == KeySet(es) + {k}
    ensures k in KeySet(es) ==> |r| == |es|
  {
    if |es| == 0 then [Entry(k, v)]
    else if es[0].key == k then
      KeySetTail(es);
      KeySetCons(Entry(k, v), es[1..]);
      [Entry(k, v)] + es[1..]
    else
      KeySetTail(es);
      var tail := Update(es[1..], k, v);
      var r := [es[0]] + tail;
      assert r[0] == es[0] && r[1..] == tail;
      KeySetCons(es[0], tail);
      r
  }

  /** `d[k] = v` keeps the keys of a dict unique. */
  lemma {:induction false} UpdateUnique(es: seq<Entry>, k: string, v: Value)
    requires UniqueKeys(es)
    ensures UniqueKeys(Update(es, k, v))
    decreases |es|
  {
    if |es| > 0 {
      assert es == [es[0]] + es[1..];
      KeySetTail(es);
      UniqueKeysCons(es[0], es[1..]);
      if es[0].key == k {
        UniqueKeysCons(Entry(k, v), es[1..]);
      } else {
        UpdateUnique(es[1..], k, v);
        UniqueKeysCons(es[0], Update(es[1..], k, v));
      }
    }
  }

  /** A key not yet present is appended after all existing entries. */
  lemma UpdateAppends(es: seq<Entry>, k: string, v: Value)
    requires k !in KeySet(es)
    ensures Update(es, k, v) == es + [Entry(k, v)]
  {
    if |es| > 0 {
      KeySetTail(es);
      UpdateAppends(es[1..], k, v);
      assert es == [es[0]] + es[1..];
    }
  }

  /** `{k: v for k, v in d.items() if k != key}`: every entry under `key` removed, order kept. */
  function Without(es: seq<Entry>, key: string): (r: seq<Entry>)
    ensures Lookup(r, key) == None
    ensures forall k' :: k' != key ==> Lookup(r, k') == Lookup(es, k')
    ensures KeySet(r) == KeySet(es) - {key}
    ensures |r| <= |es|
  {
    if |es| == 0 then []
    else
      KeySetTail(es);
      var tail := Without(es[1..], key);
      if es[0].key == key then tail
      else
        var r := [es[0]] + tail;
        KeySetCons(es[0], tail);
        r
  }

  /** Removing a key keeps the keys of a dict unique. */
  lemma {:induction false} WithoutUnique(es: seq<Entry>, key: string)
    requires UniqueKeys(es)
    ensures UniqueKeys(Without(es, key))
    decreases |es|
  {
    if |es| > 0 {
      assert es == [es[0]] + es[1..];
      KeySetTail(es);
      UniqueKeysCons(es[0], es[1..]);
      WithoutUnique(es[1..], key);
      if es[0].key != key {
        UniqueKeysCons(es[0], Without(es[1..], key));
      }
    }
  }

  /** `{**a, **b}`: the entries of `b` written over `a`, one `d[k] = v` at a time. */
  function Merge(a: seq<Entry>, b: seq<Entry>): (r: seq<Entry>)
    ensures KeySet(r) == KeySet(a) + KeySet(b)
    ensures forall k :: k !in KeySet(b) ==> Lookup(r, k) == Lookup(a, k)
    decreases |b|
  {
    if |b| == 0 then a
    else
      var last := b[|b| - 1];
      var front := b[..|b| - 1];
      assert KeySet(b) == KeySet(front) + {last.key} by {
        assert forall i :: 0 <= i < |front| ==> front[i] == b[i];
      }
      Update(Merge(a, front), last.key, last.val)
  }

  /** `{**a, **b}` keeps the keys of `a` unique. */
  lemma {:induction false} MergeUnique(a: seq<Entry>, b: seq<Entry>)
    requires UniqueKeys(a)
    ensures UniqueKeys(Merge(a, b))
    decreases |b|
  {
    if |b| > 0 {
      MergeUnique(a, b[..|b| - 1]);
      UpdateUnique(Merge(a, b[..|b| - 1]), b[|b| - 1].key, b[|b| - 1].val);
    }
  }

  lemma LookupAppend(es: seq<Entry>, e: Entry, k: string)
    ensures Lookup(es + [e], k) == if k in KeySet(es) then Lookup(es, k) else if k == e.key then Some(e.val) else None
  {
    if |es| > 0 {
      KeySetTail(es);
      assert (es + [e])[1..] == es[1..] + [e];
      LookupAppend(es[1..], e, k);
    }
  }

  /** `{**a, **b}` takes every key of `b` from `b`: right fields override left fields. */
  lemma {:induction false} MergeRightWins(a: seq<Entry>, b: seq<Entry>, k: string)
    requires UniqueKeys(b)
    requires k in KeySet(b)
    ensures Lookup(Merge(a, b), k) == Lookup(b, k)
    decreases |b|
  {
    var last := b[|b| - 1];
    var front := b[..|b| - 1];
    assert b == front + [last];
    assert KeySet(b) == KeySet(front) + {last.key} by {
      assert forall i :: 0 <= i < |front| ==> front[i] == b[i];
    }
    LookupAppend(front, last, k);
    UniqueKeysFront(b);
    if k != last.key {
      MergeRightWins(a, front, k);
    }
  }

  /** Removing a key that is absent changes nothing. */
  lemma {:induction false} WithoutAbsent(es: seq<Entry>, key: string)
    requires key !in KeySet(es)
    ensures Without(es, key) == es
    decreases |es|
  {
    if |es| > 0 {
      KeySetTail(es);
      WithoutAbsent(es[1..], key);
      assert es == [es[0]] + es[1..];
    }
  }

  /** Removing the first key of a dict with unique keys drops exactly the first entry. */
  lemma WithoutHead(es: seq<Entry>)
    requires |es| > 0 && UniqueKeys(es)
    ensures Without(es, es[0].key) == es[1..]
  {
    assert es == [es[0]] + es[1..];
    UniqueKeysCons(es[0], es[1..]);
    WithoutAbsent(es[1..], es[0].key);
  }

  lemma KeySetAppend(a: seq<Entry>, b: seq<Entry>)
    ensures KeySet(a + b) == KeySet(a) + KeySet(b)
  {
    var c := a + b;
    forall k | k in KeySet(c) ensures k in KeySet(a) + KeySet(b) {
      var i :| 0 <= i < |c| && c[i].key == k;
      if i >= |a| {
        assert b[i - |a|].key == k;
      }
    }
    forall k | k in KeySet(a) + KeySet(b) ensures k in KeySet(c) {
      if k in KeySet(a) {
        var i :| 0 <= i < |a| && a[i].key == k;
        assert c[i].key == k;
      } else {
        var i :| 0 <= i < |b| && b[i].key == k;
        assert c[|a| + i].key == k;
      }
    }
  }

  lemma MergeUnfold(a: seq<Entry>, b: seq<Entry>)
    requires |b| > 0
    ensures Merge(a, b) == Update(Merge(a, b[..|b| - 1]), b[|b| - 1].key, b[|b| - 1].val)
  {
  }

  /** `{**a, **b}` when a key repeats in `b`: its last occurrence wins. */
  lemma {:induction false} MergeLastWins(a: seq<Entry>, b: seq<Entry>, j: int)
    requires 0 <= j < |b|
    requires b[j].key !in KeySet(b[j + 1..])
    ensures Lookup(Merge(a, b), b[j].key) == Some(b[j].val)
  {
    var upto := b[..j + 1];
    assert b == upto + b[j + 1..];
    MergeSkips(a, upto, b[j + 1..], b[j].key);
    MergeUnfold(a, upto);
    assert upto[j] == b[j];
  }

  /** Entries of `c` with other keys do not change what `{**a, **b}` holds for `k`. */
  lemma {:induction false} MergeSkips(a: seq<Entry>, b: seq<Entry>, c: seq<Entry>, k: string)
    requires k !in KeySet(c)
    ensures Lookup(Merge(a, b + c), k) == Lookup(Merge(a, b), k)
    decreases |c|
  {
    if |c| > 0 {
      var n := |c| - 1;
      var bc := b + c;
      assert bc[..|bc| - 1] == b + c[..n];
      assert bc[|bc| - 1] == c[n];
      assert c[n].key in KeySet(c);
      assert KeySet(c[..n]) <= KeySet(c) by {
        forall x | x in KeySet(c[..n]) ensures x in KeySet(c) {
          var i :| 0 <= i < n && c[..n][i].key == x;
          assert c[i] == c[..n][i];
        }
      }
      MergeUnfold(a, bc);
      MergeSkips(a, b, c[..n], k);
    } else {
      assert b + c == b;
    }
  }

  /** A key of `b` is found in `{**a, **b}` holding the value of one of `b`'s entries
      under that key. */
  lemma {:induction false} MergeLookupSome(a: seq<Entry>, b: seq<Entry>, k: string)
    requires k in KeySet(b)
    ensures exists j :: 0 <= j < |b| && b[j].key == k && Lookup(Merge(a, b), k) == Some(b[j].val)
    decreases |b|
  {
    var n := |b| - 1;
    var front := b[..n];
    if b[n].key != k {
      assert k in KeySet(front) by {
        var j :| 0 <= j < |b| && b[j].key == k;
        assert front[j] == b[j];
      }
      MergeLookupSome(a, front, k);
      var j :| 0 <= j < |front| && front[j].key == k && Lookup(Merge(a, front), k) == Some(front[j].val);
      assert b[j] == front[j];
    }
  }

  /** Dropping the last entry of a dict keeps its keys unique, and that entry's key is
      not among the rest. */
  lemma UniqueKeysFront(b: seq<Entry>)
    requires |b| > 0 && UniqueKeys(b)
    ensures UniqueKeys(b[..|b| - 1]) && b[|b| - 1].key !in KeySet(b[..|b| - 1])
  {
    var front := b[..|b| - 1];
    forall i | 0 <= i < |front| ensures front[i].key != b[|b| - 1].key {
      assert front[i] == b[i];
    }
  }

  /** `{**a, **b}` with no key in common is `a`'s entries followed by `b`'s. */
  lemma {:induction false} MergeFresh(a: seq<Entry>, b: seq<Entry>)
    requires UniqueKeys(b)
    requires KeySet(a) !! KeySet(b)
    ensures Merge(a, b) == a + b
    decreases |b|
  {
    if |b| > 0 {
      var n := |b| - 1;
      var front := b[..n];
      assert b == front + [b[n]];
      KeySetAppend(front, [b[n]]);
      assert KeySet([b[n]]) == {b[n].key};
      UniqueKeysFront(b);
      MergeFresh(a, front);
      KeySetAppend(a, front);
      UpdateAppends(a + front, b[n].key, b[n].val);
      assert a + front + [b[n]] == a + b;
    }
  }

  /** Python truthiness, `bool(v)`. */
  predicate Truthy(v: Value)
  {
    match v
    case Null => false
    case Int(n) => n != 0
    case Str(s) => |s| > 0
    case Arr(xs) => |xs| > 0
    case Obj(es) => |es| > 0
  }

  /** `k in s` for strings: `k` occurs as a contiguous run of `s`. */
  predicate IsSubstring(k: string, s: string)
    decreases |s|
  {
    k <= s || (|s| > 0 && IsSubstring(k, s[1..]))
  }

  /** `for x in v`: lists yield their items, strings their characters, dicts their keys;
      None and numbers are not iterable. */
  function Iterate(v: Value): (r: Result<seq<Value>>)
    ensures v.Arr? ==> r == Ok(v.items)
    ensures r.Ok? && v.Str? ==> |r.value| == |v.s|
    ensures r.Ok? && v.Obj? ==> |r.value| == |v.entries|
    ensures r.Err? <==> v.Null? || v.Int?
  {
    match v
    case Arr(xs) => Ok(xs)
    case Str(s) => Ok(seq(|s|, i requires 0 <= i < |s| => Str([s[i]])))
    case Obj(es) => Ok(seq(|es|, i requires 0 <= i < |es| => Str(es[i].key)))
    case _ => Err(TypeError("object is not iterable"))
  }

  /** `k in v` for a string `k`: key membership for dicts, substring test for strings,
      element equality for lists; None and numbers raise. */
  function Contains(v: Value, k: string): Result<bool>
  {
    match v
    case Obj(es) => Ok(k in KeySet(es))
    case Str(s) => Ok(IsSubstring(k, s))
    case Arr(xs) => Ok(Str(k) in xs)
    case _ => Err(TypeError("argument is not iterable"))
  }

  /** `v[k]` for a string `k`: only a dict holding `k` answers. */
  function Subscript(v: Value, k: string): (r: Result<Value>)
    ensures r.Ok? <==> v.Obj? && k in KeySet(v.entries)
    ensures r.Ok? ==> Lookup(v.entries, k) == Some(r.value)
  {
    match v
    case Obj(es) =>
      (match Lookup(es, k)
       case Some(x) => Ok(x)
       case None => Err(KeyError(k)))
    case _ => Err(TypeError("indices must be integers"))
  }

  /** `v.get(k, default)`: only dicts have `.get`. */
  function GetOr(v: Value, k: string, default: Value): (r: Result<Value>)
    ensures r.Ok? <==> v.Obj?
    ensures v.Obj? && k !in KeySet(v.entries) ==> r == Ok(default)
  {
    match v
    case Obj(es) =>
      (match Lookup(es, k)
       case Some(x) => Ok(x)
       case None => Ok(default))
    case _ => Err(AttributeError("get"))
  }

  /** Python keys must be hashable: lists and dicts are not. */
  predicate Hashable(v: Value)
  {
    !v.Arr? && !v.Obj?
  }

  // ---------------------------------------------------------------------
  // `str(v)`, as used by an f-string.

  function DigitChar(d: int): char
    requires 0 <= d < 10
  {
    ['0', '1', '2', '3', '4', '5', '6', '7', '8', '9'][d]
  }

  function NatToString(n: nat): string
    decreases n
  {
    if n < 10 then [DigitChar(n)] else NatToString(n / 10) + [DigitChar(n % 10)]
  }

  function IntToString(n: int): string
  {
    if n < 0 then "-" + NatToString(-n) else NatToString(n)
  }

  // ---------------------------------------------------------------------
  // `repr` of a string: escapes.

  function HexDigit(d: int): char
    requires 0 <= d < 16
  {
    "0123456789abcdef"[d]
  }

  function Pow16(w: nat): nat
  {
    if w == 0 then 1 else 16 * Pow16(w - 1)
  }

  /** `n` written with exactly `w` lower-case hexadecimal digits, as `repr` pads it. */
  function Hex(n: nat, w: nat): (r: string)
    ensures |r| == w
    decreases w
  {
    if w == 0 then "" else Hex(n / 16, w - 1) + [HexDigit(n % 16)]
  }

  /** Assigned code points above Latin-1 that `str.isprintable()` rejects: the space
      separators other than the space, the line and paragraph separators, the format
      characters, private use and noncharacters. */
  predicate WideUnprintable(n: int)
  {
    // space, line and paragraph separators
    || n == 0x1680 || 0x2000 <= n <= 0x200a || n == 0x2028 || n == 0x2029 || n == 0x202f
    || n == 0x205f || n == 0x3000
    // format characters
    || 0x0600 <= n <= 0x0605 || n == 0x061c || n == 0x06dd || n == 0x070f || 0x0890 <= n <= 0x0891
    || n == 0x08e2 || n == 0x180e || 0x200b <= n <= 0x200f || 0x202a <= n <= 0x202e
    || 0x2060 <= n <= 0x2064 || 0x2066 <= n <= 0x206f || n == 0xfeff || 0xfff9 <= n <= 0xfffb
    || n == 0x110bd || n == 0x110cd || 0x13430 <= n <= 0x1343f || 0x1bca0 <= n <= 0x1bca3
    || 0x1d173 <= n <= 0x1d17a || n == 0xe0001 || 0xe0020 <= n <= 0xe007f
    // private use and noncharacters
    || 0xe000 <= n <= 0xf8ff || 0xfdd0 <= n <= 0xfdef || n % 0x10000 >= 0xfffe || n >= 0xf0000
  }

  /** What `repr` may write as itself: printable ASCII, printable Latin-1 (not the C1
      controls, the no-break space or the soft hyphen), and wider characters outside
      `WideUnprintable`. */
  predicate Printable(c: char)
  {
    var n := c as int;
    if n < 0x80 then 0x20 <= n < 0x7f
    else if n < 0x100 then 0xa0 < n && n != 0xad
    else !WideUnprintable(n)
  }

  /** One character of a string literal quoted with `q`: backslash and the quote are
      escaped, tab, newline and carriage return by name, any other character that is
      not printable by its code point (`\xhh`, `\uhhhh` or `\Uhhhhhhhh`). */
  function EscapeChar(c: char, q: char): string
  {
    if c == '\\' then "\\\\"
    else if c == q then ['\\', q]
    else if c == '\t' then "\\t"
    else if c == '\n' then "\\n"
    else if c == '\r' then "\\r"
    else if Printable(c) then [c]
    else if c as int < 0x100 then "\\x" + Hex(c as int, 2)
    else if c as int < 0x10000 then "\\u" + Hex(c as int, 4)
    else "\\U" + Hex(c as int, 8)
  }

  /** The characters of `s` escaped for a Python string literal quoted with `q`. */
  function Escape(s: string, q: char): string
    decreases |s|
  {
    if |s| == 0 then "" else EscapeChar(s[0], q) + Escape(s[1..], q)
  }

  // ---------------------------------------------------------------------
  // Reading a string literal back: the partner of `Escape`.

  function HexValue(c: char): Option<nat>
  {
    if '0' <= c <= '9' then Some(c as int - '0' as int)
    else if 'a' <= c <= 'f' then Some(c as int - 'a' as int + 10)
    else None
  }

  /** The number that a run of hexadecimal digits spells. */
  function ParseHex(h: string): Option<nat>
    decreases |h|
  {
    if |h| == 0 then Some(0)
    else
      match (ParseHex(h[..|h| - 1]), HexValue(h[|h| - 1]))
      case (Some(a), Some(d)) => Some(16 * a + d)
      case _ => None
  }

  /** A code point that a `\x`, `\u` or `\U` escape may name. */
  predicate IsScalar(n: int)
  {
    0 <= n < 0xd800 || 0xe000 <= n < 0x110000
  }

  /** Reading back the body of a string literal quoted with `q`: the escapes `Escape`
      writes are turned back into the characters they stand for; anything else after a
      backslash is not an escape `repr` writes. */
  function Unescape(s: string, q: char): Option<string>
    decreases |s|
  {
    if |s| == 0 then Some("")
    else if s[0] != '\\' then
      match Unescape(s[1..], q)
      case Some(t) => Some([s[0]] + t)
      case None => None
    else if |s| < 2 then None
    else
      var e := s[1];
      var w := if e == 'x' then 2 else if e == 'u' then 4 else if e == 'U' then 8 else 0;
      if e == '\\' || e == q || e == 't' || e == 'n' || e == 'r' then
        var c := if e == 't' then '\t' else if e == 'n' then '\n' else if e == 'r' then '\r' else e;
        match Unescape(s[2..], q)
        case Some(t) => Some([c] + t)
        case None => None
      else if w == 0 || |s| < 2 + w then None
      else
        match ParseHex(s[2..2 + w])
        case Some(n) =>
          if !IsScalar(n) then None
          else
            (match Unescape(s[2 + w..], q)
             case Some(t) => Some([n as char] + t)
             case None => None)
        case None => None
  }

  lemma HexValueOfDigit(d: int)
    requires 0 <= d < 16
    ensures HexValue(HexDigit(d)) == Some(d)
  {
  }

  /** Hexadecimal digits read back as the number they were written from. */
  lemma {:induction false} ParseHexOfHex(n: nat, w: nat)
    requires n < Pow16(w)
    ensures ParseHex(Hex(n, w)) == Some(n)
    decreases w
  {
    if w > 0 {
      ParseHexOfHex(n / 16, w - 1);
      assert Hex(n, w)[..w - 1] == Hex(n / 16, w - 1);
      HexValueOfDigit(n % 16);
    }
  }

  /** An escaped character followed by more text reads back as the character followed
      by whatever the text reads back as. */
  lemma UnescapeChar(c: char, q: char, t: string)
    requires q == '\'' || q == '"'
    ensures Unescape(EscapeChar(c, q) + t, q)
         == match Unescape(t, q) case Some(u) => Some([c] + u) case None => None
  {
    var n := c as int;
    if c == '\\' || c == q {
      UnescapeNamed(c, c, q, t);
    } else if c == '\t' {
      UnescapeNamed('t', c, q, t);
    } else if c == '\n' {
      UnescapeNamed('n', c, q, t);
    } else if c == '\r' {
      UnescapeNamed('r', c, q, t);
    } else if Printable(c) {
      UnescapePlain(c, q, t);
    } else if n < 0x100 {
      UnescapeHex('x', 2, n, q, t);
    } else if n < 0x10000 {
      UnescapeHex('u', 4, n, q, t);
    } else {
      UnescapeHex('U', 8, n, q, t);
    }
  }

  lemma UnescapeNamed(e: char, c: char, q: char, t: string)
    requires q == '\'' || q == '"'
    requires (e == c && (c == '\\' || c == q)) || (e == 't' && c == '\t') || (e == 'n' && c == '\n') || (e == 'r' && c == '\r')
    ensures Unescape(['\\', e] + t, q) == match Unescape(t, q) case Some(u) => Some([c] + u) case None => None
  {
    var s := ['\\', e] + t;
    assert s[0] == '\\' && s[1] == e && s[2..] == t;
  }

  lemma UnescapePlain(c: char, q: char, t: string)
    requires c != '\\'
    ensures Unescape([c] + t, q) == match Unescape(t, q) case Some(u) => Some([c] + u) case None => None
  {
    var s := [c] + t;
    assert s[0] == c && s[1..] == t;
  }

  lemma UnescapeHex(e: char, w: nat, n: int, q: char, t: string)
    requires q == '\'' || q == '"'
    requires (e == 'x' && w == 2 && 0 <= n < 0x100) || (e == 'u' && w == 4 && 0x100 <= n < 0x10000)
          || (e == 'U' && w == 8 && 0x10000 <= n < 0x110000)
    requires IsScalar(n)
    ensures Unescape(['\\', e] + Hex(n, w) + t, q)
         == match Unescape(t, q) case Some(u) => Some([n as char] + u) case None => None
  {
    var h := Hex(n, w);
    Pow16Bounds();
    ParseHexOfHex(n, w);
    ThreeParts(['\\', e], h, t);
  }

  lemma Pow16Bounds()
    ensures Pow16(2) == 0x100 && Pow16(4) == 0x10000 && Pow16(8) == 0x1_0000_0000
  {
  }

  /** The three parts of `a + b + c`, recovered by slicing. */
  lemma ThreeParts<T>(a: seq<T>, b: seq<T>, c: seq<T>)
    ensures var s := a + b + c;
            && s[..|a|] == a && s[|a|..|a| + |b|] == b && s[|a| + |b|..] == c
            && forall i :: 0 <= i < |a| ==> s[i] == a[i]
  {
  }

  /** `Unescape` undoes `Escape`: a string written between either quote reads back as
      itself. */
  lemma {:induction false} UnescapeEscape(s: string, q: char)
    requires q == '\'' || q == '"'
    ensures Unescape(Escape(s, q), q) == Some(s)
    decreases |s|
  {
    if |s| > 0 {
      UnescapeEscape(s[1..], q);
      UnescapeChar(s[0], q, Escape(s[1..], q));
      assert [s[0]] + s[1..] == s;
    }
  }

  /** `repr(s)`: single quotes unless `s` holds a single quote and no double quote. */
  function ReprString(s: string): string
  {
    var q := if '\'' in s && '"' !in s then '"' else '\'';
    [q] + Escape(s, q) + [q]
  }

  /** `repr(s)` is a quoted literal whose body reads back as `s`. */
  lemma ReprStringReadsBack(s: string)
    ensures var r := ReprString(s);
            && |r| >= 2 && (r[0] == '\'' || r[0] == '"') && r[|r| - 1] == r[0]
            && Unescape(r[1..|r| - 1], r[0]) == Some(s)
  {
    var q := if '\'' in s && '"' !in s then '"' else '\'';
    var r := ReprString(s);
    ThreeParts([q], Escape(s, q), [q]);
    UnescapeEscape(s, q);
  }

  /** A control character is written by its code point: `repr('\x01')` is `'\x01'`. */
  lemma ReprControlExample()
    ensures ReprString([1 as char]) == "'\\x01'"
  {
    assert Hex(1, 2) == "01";
    assert Escape([1 as char], '\'') == EscapeChar(1 as char, '\'') + Escape([], '\'');
  }

  function ReprItems(xs: seq<Value>): string
    decreases xs
  {
    if |xs| == 0 then ""
    else if |xs| == 1 then Repr(xs[0])
    else Repr(xs[0]) + ", " + ReprItems(xs[1..])
  }

  function ReprEntries(es: seq<Entry>): string
    decreases es
  {
    if |es| == 0 then ""
    else
      var one := ReprString(es[0].key) + ": " + Repr(es[0].val);
      if |es| == 1 then one else one + ", " + ReprEntries(es[1..])
  }

  /** `repr(v)`. */
  function Repr(v: Value): string
    decreases v
  {
    match v
    case Null => "None"
    case Int(n) => IntToString(n)
    case Str(s) => ReprString(s)
    case Arr(xs) => "[" + ReprItems(xs) + "]"
    case Obj(es) => "{" + ReprEntries(es) + "}"
  }

  /** `str(v)`: a string is itself, everything else its `repr`. */
  function Show(v: Value): string
  {
    if v.Str? then v.s else Repr(v)
  }
}
