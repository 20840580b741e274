/** Dotted-path lookup, `get_nested_dict_value`, shared by join, map, select and keys.

    A path is a string such as `"a.b.c"`; the lookup splits it on `.` and
    follows the segments in order. */
module Paths {
  import opened Errors
  import opened Json

  /** `s.split('.')`: the maximal dot-free runs of `s`, empty runs included. */
  function Split(s: string): (r: seq<string>)
    ensures |r| >= 1
    decreases |s|
  {
    if |s| == 0 then [""]
    else
      var rest := Split(s[1..]);
      if s[0] == '.' then [""] + rest
      else [[s[0]] + rest[0]] + rest[1..]
  }

  /** `'.'.join(parts)`. */
  function JoinPath(parts: seq<string>): string
    requires |parts| >= 1
    decreases |parts|
  {
    if |parts| == 1 then parts[0] else parts[0] + "." + JoinPath(parts[1..])
  }

  predicate DotFree(s: string)
  {
    '.' !in s
  }

  /** No segment produced by `Split` contains a dot. */
  lemma {:induction false} SplitSegmentsDotFree(s: string)
    ensures forall i :: 0 <= i < |Split(s)| ==> DotFree(Split(s)[i])
    decreases |s|
  {
    if |s| > 0 {
      SplitSegmentsDotFree(s[1..]);
    }
  }

  /** Joining the segments back with dots gives the original string. */
  lemma {:induction false} JoinSplit(s: string)
    ensures JoinPath(Split(s)) == s
    decreases |s|
  {
    if |s| > 0 {
      var rest := Split(s[1..]);
      JoinSplit(s[1..]);
      assert s == [s[0]] + s[1..];
      if s[0] != '.' && |rest| > 1 {
        assert ([[s[0]] + rest[0]] + rest[1..])[1..] == rest[1..];
      }
    }
  }

  /** Splitting a dotted concatenation splits each side: `"a.b"` is path `a` then path `b`. */
  lemma {:induction false} SplitDotted(a: string, b: string)
    ensures Split(a + "." + b) == Split(a) + Split(b)
    decreases |a|
  {
    if |a| == 0 {
      assert a + "." + b == "." + b;
      assert ("." + b)[1..] == b;
    } else {
      SplitDotted(a[1..], b);
      SplitDottedStep(a, b);
    }
  }

  /** The inductive step of `SplitDotted`: prepending a character to the left side. */
  lemma SplitDottedStep(a: string, b: string)
    requires |a| > 0
    requires Split(a[1..] + "." + b) == Split(a[1..]) + Split(b)
    ensures Split(a + "." + b) == Split(a) + Split(b)
  {
    var s, t := a + "." + b, a[1..] + "." + b;
    var ra, rb := Split(a[1..]), Split(b);
    SplitDottedUnfold(a, b);
    var head := if a[0] == '.' then [""] else [[a[0]] + ra[0]];
    var rest := if a[0] == '.' then ra else ra[1..];
    assert Split(a) == head + rest;
    if a[0] != '.' {
      TailOfConcat(ra, rb);
    }
    assert Split(s) == head + (rest + rb);
    AppendAssoc(head, rest, rb);
  }

  /** One unfolding of `Split` on a dotted concatenation whose left side is not empty. */
  lemma SplitDottedUnfold(a: string, b: string)
    requires |a| > 0
    ensures var t := Split(a[1..] + "." + b);
            Split(a + "." + b) == if a[0] == '.' then [""] + t else [[a[0]] + t[0]] + t[1..]
  {
    var s := a + "." + b;
    assert s[0] == a[0];
    assert s[1..] == a[1..] + "." + b;
  }

  lemma AppendAssoc<T>(x: seq<T>, y: seq<T>, z: seq<T>)
    ensures x + (y + z) == (x + y) + z
  {
  }

  /** Head and tail of a concatenation whose left part is not empty. */
  lemma TailOfConcat<T>(x: seq<T>, y: seq<T>)
    requires |x| > 0
    ensures (x + y)[0] == x[0] && (x + y)[1..] == x[1..] + y
  {
  }

  /** A dot-free string is a single segment. */
  lemma {:induction false} SplitDotFree(s: string)
    requires DotFree(s)
    ensures Split(s) == [s]
    decreases |s|
  {
    if |s| > 0 {
      assert s == [s[0]] + s[1..];
      SplitDotFree(s[1..]);
    }
  }

  /** Splitting a join of dot-free segments recovers the segments. */
  lemma {:induction false} SplitJoin(parts: seq<string>)
    requires |parts| >= 1
    requires forall i :: 0 <= i < |parts| ==> DotFree(parts[i])
    ensures Split(JoinPath(parts)) == parts
    decreases |parts|
  {
    SplitDotFree(parts[0]);
    if |parts| > 1 {
      SplitJoin(parts[1..]);
      SplitDotted(parts[0], JoinPath(parts[1..]));
      assert parts == [parts[0]] + parts[1..];
    }
  }

  /** The loop of `get_nested_dict_value` over already split segments: stop with None
      when the current value is None or lacks the segment, otherwise step into it.
      `key in d` and `d[key]` keep Python's meaning for strings, lists and numbers. */
  function GetPath(d: Value, path: seq<string>): (r: Result<Value>)
    ensures r.Ok? && r.value != Null && |path| > 0 ==> d.Obj? && path[0] in KeySet(d.entries)
    decreases |path|
  {
    if |path| == 0 then Ok(d)
    else if d.Null? then Ok(Null)
    else
      var present :- Contains(d, path[0]);
      if !present then Ok(Null)
      else
        var next :- Subscript(d, path[0]);
        GetPath(next, path[1..])
  }

  /** `get_nested_dict_value(d, key_str)`: a key string that is not a string has no `.split`. */
  function GetNested(d: Value, keyStr: Value): (r: Result<Value>)
    ensures !keyStr.Str? ==> r.Err?
    ensures r.Ok? && r.value != Null ==> d.Obj? && Split(keyStr.s)[0] in KeySet(d.entries)
  {
    if !keyStr.Str? then Err(AttributeError("split")) else GetPath(d, Split(keyStr.s))
  }

  // ---------------------------------------------------------------------
  // A reference reading of the lookup, for values that are nested dicts.

  /** Descend through dicts only: the value at `path`, or None when a segment is
      missing or an intermediate is not a dict. */
  function Reach(d: Value, path: seq<string>): Option<Value>
    decreases |path|
  {
    if |path| == 0 then Some(d)
    else if d.Obj? && path[0] in KeySet(d.entries) then Reach(Lookup(d.entries, path[0]).value, path[1..])
    else None
  }

  /** The descent meets a string, list or number before the path is used up. */
  predicate Stuck(d: Value, path: seq<string>)
    decreases |path|
  {
    if |path| == 0 || d.Null? then false
    else if d.Obj? then path[0] in KeySet(d.entries) && Stuck(Lookup(d.entries, path[0]).value, path[1..])
    else true
  }

  /** The lookup follows the segments in order: whenever the descent stays inside dicts
      and None, it returns the value reached, or None as soon as a segment is missing
      or an intermediate is None. */
  lemma {:induction false} GetPathFollowsSegments(d: Value, path: seq<string>)
    requires !Stuck(d, path)
    ensures Reach(d, path).Some? ==> GetPath(d, path) == Ok(Reach(d, path).value)
    ensures Reach(d, path).None? ==> GetPath(d, path) == Ok(Null)
    decreases |path|
  {
    if |path| > 0 && d.Obj? && path[0] in KeySet(d.entries) {
      GetPathFollowsSegments(Lookup(d.entries, path[0]).value, path[1..]);
    }
  }

  /** A non-None answer is always the value really reached through dicts. */
  lemma {:induction false} GetPathFound(d: Value, path: seq<string>)
    requires GetPath(d, path).Ok? && GetPath(d, path).value != Null
    ensures Reach(d, path) == Some(GetPath(d, path).value)
    decreases |path|
  {
    if |path| > 0 {
      GetPathFound(Lookup(d.entries, path[0]).value, path[1..]);
    }
  }

  /** Once None, always None. */
  lemma GetPathFromNull(path: seq<string>)
    ensures GetPath(Null, path) == Ok(Null)
  {
  }

  /** Following `p` and then `q` is following `p + q`. */
  lemma {:induction false} GetPathConcat(d: Value, p: seq<string>, q: seq<string>)
    ensures GetPath(d, p + q) == (match GetPath(d, p) case Ok(x) => GetPath(x, q) case Err(e) => Err(e))
    decreases |p|
  {
    if |p| == 0 {
      assert p + q == q;
    } else {
      assert (p + q)[0] == p[0];
      assert (p + q)[1..] == p[1..] + q;
      GetPathFromNull(q);
      if !d.Null? && Contains(d, p[0]).Ok? && Contains(d, p[0]).value && Subscript(d, p[0]).Ok? {
        GetPathConcat(Subscript(d, p[0]).value, p[1..], q);
      }
    }
  }

  /** `get(d, "p1.p2") == get(get(d, "p1"), "p2")`, errors included. */
  lemma GetNestedDotted(d: Value, p1: string, p2: string)
    ensures GetNested(d, Str(p1 + "." + p2))
         == (match GetNested(d, Str(p1)) case Ok(x) => GetNested(x, Str(p2)) case Err(e) => Err(e))
  {
    SplitDotted(p1, p2);
    GetPathConcat(d, Split(p1), Split(p2));
  }

  /** A path without dots is one subscript: `get(d, "k") == d["k"]` for a dict holding
      `k`, and None for a dict without it. */
  lemma GetNestedOneSegment(d: Value, k: string)
    requires DotFree(k)
    requires d.Obj?
    ensures k in KeySet(d.entries) ==> GetNested(d, Str(k)) == Ok(Lookup(d.entries, k).value)
    ensures k !in KeySet(d.entries) ==> GetNested(d, Str(k)) == Ok(Null)
  {
    SplitDotFree(k);
    assert [k][1..] == [];
    if k in KeySet(d.entries) {
      assert Contains(d, k) == Ok(true);
      assert GetPath(d, [k]) == GetPath(Subscript(d, k).value, []);
    }
  }
}
