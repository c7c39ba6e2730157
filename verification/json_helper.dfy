/**
  JsonHelper: typed lookups with defaults and slash-separated path access
  into nested JSON objects.
 */
module JsonHelper {
  import opened JsonValue
  import opened Text

  /** getString: the stored string, or the default. */
  function GetString(obj: Object, key: string, default: string): string {
    if key in obj && obj[key].JStr? then obj[key].str else default
  }

  /** getInt: the stored number, or the default. */
  function GetInt(obj: Object, key: string, default: int): int {
    if key in obj && obj[key].JInt? then obj[key].num else default
  }

  /** getBool: the stored boolean, or the default. */
  function GetBool(obj: Object, key: string, default: bool): bool {
    if key in obj && obj[key].JBool? then obj[key].b else default
  }

  /** The typed getters give back exactly what was stored under the key when
      it has their type, and the default for a missing key or any other type. */
  lemma TypedGetters(obj: Object, key: string, s: string, n: int, b: bool, v: Json)
    ensures GetString(obj[key := JStr(s)], key, "default") == s
    ensures GetInt(obj[key := JInt(n)], key, -1) == n
    ensures GetBool(obj[key := JBool(b)], key, !b) == b
    ensures key !in obj ==> GetString(obj, key, s) == s && GetInt(obj, key, n) == n
                            && GetBool(obj, key, b) == b
    ensures !v.JStr? ==> GetString(obj[key := v], key, s) == s
    ensures !v.JInt? ==> GetInt(obj[key := v], key, n) == n
    ensures !v.JBool? ==> GetBool(obj[key := v], key, b) == b
  {
  }

  /** The string elements of an array, in order, non-strings skipped. */
  function Strings(items: seq<Json>): (r: seq<string>)
    ensures |r| <= |items|
    ensures forall i :: 0 <= i < |r| ==> JStr(r[i]) in items
    ensures forall i :: 0 <= i < |items| && items[i].JStr? ==> items[i].str in r
  {
    if |items| == 0 then []
    else
      var rest := Strings(items[1..]);
      assert forall i :: 0 <= i < |rest| ==> JStr(rest[i]) in items by {
        forall i | 0 <= i < |rest| ensures JStr(rest[i]) in items {
          assert JStr(rest[i]) in items[1..];
        }
      }
      assert forall i :: 1 <= i < |items| && items[i].JStr? ==> items[i].str in rest by {
        forall i | 1 <= i < |items| && items[i].JStr? ensures items[i].str in rest {
          assert items[1..][i - 1] == items[i];
        }
      }
      if items[0].JStr? then [items[0].str] + rest else rest
  }

  /** Reading strings is a filter: one element gives its string or nothing,
      and the strings of a concatenation are the concatenation of the
      strings, so every string element is kept, in order, wherever the
      skipped elements stand. */
  lemma {:induction false} StringsIsFilter(a: seq<Json>, b: seq<Json>, x: Json)
    ensures Strings([x]) == (if x.JStr? then [x.str] else [])
    ensures Strings(a + b) == Strings(a) + Strings(b)
  {
    assert [x][1..] == [];
    StringsConcat(a, b);
  }

  lemma {:induction false} StringsConcat(a: seq<Json>, b: seq<Json>)
    ensures Strings(a + b) == Strings(a) + Strings(b)
  {
    if |a| == 0 {
      assert a + b == b;
    } else {
      assert (a + b)[0] == a[0];
      assert (a + b)[1..] == a[1..] + b;
      StringsConcat(a[1..], b);
    }
  }

  /** getStringArray: the string elements of the array stored under `key`;
      nothing when the key is missing or holds no array. */
  function GetStringArray(obj: Object, key: string): (r: seq<string>)
    ensures !(key in obj && obj[key].JArr?) ==> r == []
    ensures key in obj && obj[key].JArr? ==> |r| <= |obj[key].items|
    ensures forall i :: 0 <= i < |r| ==> key in obj && obj[key].JArr? && JStr(r[i]) in obj[key].items
    ensures key in obj && obj[key].JArr? ==>
      forall i :: 0 <= i < |obj[key].items| && obj[key].items[i].JStr? ==> obj[key].items[i].str in r
  {
    if key in obj && obj[key].JArr? then Strings(obj[key].items) else []
  }

  /** The array under `key` read element by element: whatever stands before
      and after an element, its string (if it is one) comes out between the
      strings before it and those after it. */
  lemma GetStringArrayOrder(obj: Object, key: string, a: seq<Json>, x: Json, b: seq<Json>)
    requires key in obj && obj[key] == JArr(a + [x] + b)
    ensures GetStringArray(obj, key) == Strings(a) + (if x.JStr? then [x.str] else []) + Strings(b)
  {
    StringsIsFilter(a + [x], b, x);
    StringsConcat(a, [x]);
  }

  /** Reading back an array built from strings yields those strings; an
      element of another type is dropped without disturbing the order of the
      rest, wherever it stands. */
  lemma {:induction false} StringsOfStrings(xs: seq<string>, ys: seq<string>, other: Json)
    requires !other.JStr?
    ensures Strings(StringArray(xs)) == xs
    ensures Strings([other] + StringArray(ys)) == ys
    ensures Strings(StringArray(xs) + [other]) == xs
    ensures Strings(StringArray(xs) + [other] + StringArray(ys)) == xs + ys
  {
    StringsOfStringArray(xs);
    StringsOfStringArray(ys);
    StringsIsFilter(StringArray(xs), [other], other);
    StringsIsFilter([other], StringArray(ys), other);
    StringsConcat(StringArray(xs) + [other], StringArray(ys));
  }

  lemma {:induction false} StringsOfStringArray(xs: seq<string>)
    ensures Strings(StringArray(xs)) == xs
  {
    if |xs| > 0 {
      assert StringArray(xs)[1..] == StringArray(xs[1..]);
      StringsOfStringArray(xs[1..]);
    }
  }

  /** The object stored under `key`, or an empty object (QJsonValue::toObject
      of QJsonObject::value). */
  function ChildObject(obj: Object, key: string): Object {
    if key in obj && obj[key].JObj? then obj[key].fields else map[]
  }

  /** Walks `parts` through nested objects; an empty object as soon as a step
      is missing or not an object. */
  function GetAt(obj: Object, parts: seq<string>): Object
    decreases |parts|
  {
    if |parts| == 0 then obj
    else if parts[0] in obj && obj[parts[0]].JObj? then GetAt(obj[parts[0]].fields, parts[1..])
    else map[]
  }

  /** Stores `value` at the end of `parts`, creating (or replacing with)
      objects along the way. */
  function SetAt(obj: Object, parts: seq<string>, value: Object): (r: Object)
    requires |parts| > 0
    ensures r.Keys == obj.Keys + {parts[0]}
    ensures forall k :: k in obj && k != parts[0] ==> r[k] == obj[k]
    ensures r[parts[0]].JObj?
    decreases |parts|
  {
    if |parts| == 1 then obj[parts[0] := JObj(value)]
    else obj[parts[0] := JObj(SetAt(ChildObject(obj, parts[0]), parts[1..], value))]
  }

  /** getObjectAtPath */
  function GetObjectAtPath(root: Object, path: string, sep: char): Object {
    GetAt(root, Split(path, sep))
  }

  /** setObjectAtPath: a path with no non-empty segment replaces the root. */
  function SetObjectAtPath(root: Object, path: string, value: Object, sep: char): Object {
    var parts := Split(path, sep);
    if |parts| == 0 then value else SetAt(root, parts, value)
  }

  lemma GetAtEmpty(parts: seq<string>)
    ensures GetAt(map[], parts) == map[]
  {
  }

  /** One step of a walk is the walk from the child object. */
  lemma GetAtStep(obj: Object, parts: seq<string>)
    requires |parts| > 0
    ensures GetAt(obj, parts) == GetAt(ChildObject(obj, parts[0]), parts[1..])
  {
    if !(parts[0] in obj && obj[parts[0]].JObj?) {
      GetAtEmpty(parts[1..]);
    }
  }

  /** Reading the path just written gives the written object; reading below
      it reads inside the written object. */
  lemma {:induction false} GetAtSetAt(obj: Object, parts: seq<string>, value: Object, rest: seq<string>)
    requires |parts| > 0
    ensures GetAt(SetAt(obj, parts, value), parts + rest) == GetAt(value, rest)
    decreases |parts|
  {
    var r := SetAt(obj, parts, value);
    assert (parts + rest)[0] == parts[0];
    assert (parts + rest)[1..] == parts[1..] + rest;
    if |parts| > 1 {
      GetAtSetAt(ChildObject(obj, parts[0]), parts[1..], value, rest);
    }
  }

  predicate IsPrefix(p: seq<string>, q: seq<string>) {
    |p| <= |q| && q[..|p|] == p
  }

  lemma PrefixStep(p: seq<string>, q: seq<string>)
    requires |p| > 0 && |q| > 0 && p[0] == q[0]
    ensures IsPrefix(p[1..], q[1..]) <==> IsPrefix(p, q)
  {
    if IsPrefix(p[1..], q[1..]) {
      assert q[..|p|] == [q[0]] + q[1..][..|p| - 1];
    }
    if IsPrefix(p, q) {
      assert q[1..][..|p| - 1] == q[..|p|][1..];
    }
  }

  /** Writing at `parts` is invisible from every path that neither leads to
      nor goes through the written position: keys off the path keep their
      values at every level. */
  lemma {:induction false} SetAtFrame(obj: Object, parts: seq<string>, value: Object, q: seq<string>)
    requires |parts| > 0
    requires !IsPrefix(q, parts) && !IsPrefix(parts, q)
    ensures GetAt(SetAt(obj, parts, value), q) == GetAt(obj, q)
    decreases |parts|
  {
    var r := SetAt(obj, parts, value);
    assert IsPrefix([], parts);
    if q[0] != parts[0] {
      GetAtStep(r, q);
      GetAtStep(obj, q);
    } else {
      assert IsPrefix(parts[..1], q);
      assert IsPrefix(q[..1], parts);
      PrefixStep(q, parts);
      PrefixStep(parts, q);
      SetAtFrame(ChildObject(obj, parts[0]), parts[1..], value, q[1..]);
      GetAtStep(r, q);
      GetAtStep(obj, q);
    }
  }

  /** Round trip: after setObjectAtPath(root, path, v), getObjectAtPath at the
      same path returns v, and every path unrelated to it reads as before. */
  lemma SetThenGet(root: Object, path: string, value: Object, sep: char, other: string)
    ensures GetObjectAtPath(SetObjectAtPath(root, path, value, sep), path, sep) == value
    ensures var p := Split(path, sep); var q := Split(other, sep);
      |p| > 0 && !IsPrefix(p, q) && !IsPrefix(q, p) ==>
        GetObjectAtPath(SetObjectAtPath(root, path, value, sep), other, sep)
          == GetObjectAtPath(root, other, sep)
  {
    var p := Split(path, sep);
    if |p| > 0 {
      GetAtSetAt(root, p, value, []);
      assert p + [] == p;
      var q := Split(other, sep);
      if !IsPrefix(p, q) && !IsPrefix(q, p) {
        SetAtFrame(root, p, value, q);
      }
    }
  }

  lemma SplitSkipsEmptySegments(a: string, b: string, sep: char)
    ensures Split(a + [sep, sep] + b, sep) == Split(a + [sep] + b, sep)
    ensures Split(a + [sep], sep) == Split(a, sep)
  {
    assert a + [sep, sep] + b == a + [sep] + ([sep] + b);
    TokensConcat(a, sep, [sep] + b, Char(sep));
    assert [] + [sep] + b == [sep] + b;
    TokensConcat([], sep, b, Char(sep));
    TokensConcat(a, sep, b, Char(sep));
    assert a + [sep] + [] == a + [sep];
    TokensConcat(a, sep, [], Char(sep));
  }

  /** Empty path segments are skipped: a doubled or trailing separator reads
      and writes the same place as a single one or none (so "a//b/" is "a/b"). */
  lemma EmptySegmentsIgnored(root: Object, a: string, b: string, value: Object, sep: char)
    ensures GetObjectAtPath(root, a + [sep, sep] + b, sep) == GetObjectAtPath(root, a + [sep] + b, sep)
    ensures SetObjectAtPath(root, a + [sep, sep] + b, value, sep) == SetObjectAtPath(root, a + [sep] + b, value, sep)
    ensures GetObjectAtPath(root, a + [sep], sep) == GetObjectAtPath(root, a, sep)
    ensures SetObjectAtPath(root, a + [sep], value, sep) == SetObjectAtPath(root, a, value, sep)
  {
    SplitSkipsEmptySegments(a, b, sep);
  }

  /** An empty path (or one made only of separators) replaces the whole root
      on write and reads the root itself. */
  lemma EmptyPath(root: Object, value: Object, sep: char)
    ensures SetObjectAtPath(root, "", value, sep) == value
    ensures SetObjectAtPath(root, [sep], value, sep) == value
    ensures GetObjectAtPath(root, "", sep) == root
  {
    TokensConcat([], sep, [], Char(sep));
    assert [] + [sep] + [] == [sep];
  }
}
