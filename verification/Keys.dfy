/** Storage keys (rule.go): `koala:{rule}:{field}={value}...` with the fields in sorted order. */
module Keys {

  // Sorting strings

  /** Lexicographic order. */
  predicate Le(a: string, b: string) {
    a == "" || (b != "" && (a[0] < b[0] || (a[0] == b[0] && Le(a[1..], b[1..]))))
  }

  lemma {:induction false} LeTotal(a: string, b: string)
    ensures Le(a, b) || Le(b, a)
  {
    if a != "" && b != "" {
      LeTotal(a[1..], b[1..]);
    }
  }

  lemma {:induction false} LeAntisymmetric(a: string, b: string)
    requires Le(a, b) && Le(b, a)
    ensures a == b
  {
    if a != "" {
      LeAntisymmetric(a[1..], b[1..]);
      assert a == [a[0]] + a[1..] && b == [b[0]] + b[1..];
    }
  }

  lemma {:induction false} LeTransitive(a: string, b: string, c: string)
    requires Le(a, b) && Le(b, c)
    ensures Le(a, c)
  {
    if a != "" && a[0] == b[0] && b[0] == c[0] {
      LeTransitive(a[1..], b[1..], c[1..]);
    }
  }

  predicate Sorted(ss: seq<string>) {
    forall i, j :: 0 <= i < j < |ss| ==> Le(ss[i], ss[j])
  }

  predicate Distinct(ss: seq<string>) {
    forall i, j :: 0 <= i < j < |ss| ==> ss[i] != ss[j]
  }

  function Insert(s: string, ss: seq<string>): seq<string> {
    if ss == [] || Le(s, ss[0]) then [s] + ss else [ss[0]] + Insert(s, ss[1..])
  }

  /** `sort.Strings`. */
  function SortStrings(ss: seq<string>): seq<string> {
    if ss == [] then [] else Insert(ss[0], SortStrings(ss[1..]))
  }

  function Elements(ss: seq<string>): set<string> {
    set s | s in ss
  }

  lemma {:induction false} InsertSorts(s: string, ss: seq<string>)
    requires Sorted(ss)
    ensures Sorted(Insert(s, ss))
    ensures forall t :: t in Insert(s, ss) <==> t == s || t in ss
    ensures |Insert(s, ss)| == |ss| + 1
  {
    if ss == [] {
    } else if Le(s, ss[0]) {
      forall j | 0 < j < |ss| ensures Le(s, ss[j]) {
        LeTransitive(s, ss[0], ss[j]);
      }
    } else {
      LeTotal(s, ss[0]);
      InsertSorts(s, ss[1..]);
      forall t | t in Insert(s, ss[1..]) ensures Le(ss[0], t) {
        if t != s {
          var k :| 0 <= k < |ss[1..]| && ss[1..][k] == t;
          assert ss[k + 1] == t;
        }
      }
    }
  }

  lemma {:induction false} SortSorts(ss: seq<string>)
    ensures Sorted(SortStrings(ss)) && |SortStrings(ss)| == |ss|
    ensures forall t :: t in SortStrings(ss) <==> t in ss
  {
    if ss != [] {
      SortSorts(ss[1..]);
      InsertSorts(ss[0], SortStrings(ss[1..]));
    }
  }

  lemma {:induction false} DistinctCount(ss: seq<string>)
    ensures |Elements(ss)| <= |ss|
    ensures |Elements(ss)| == |ss| <==> Distinct(ss)
  {
    if ss != [] {
      DistinctCount(ss[1..]);
      assert Elements(ss) == {ss[0]} + Elements(ss[1..]);
      if ss[0] in ss[1..] {
        assert Elements(ss) == Elements(ss[1..]);
        var k :| 0 <= k < |ss[1..]| && ss[1..][k] == ss[0];
        assert ss[0] == ss[k + 1];
      } else {
        assert forall j :: 0 < j < |ss| ==> ss[j] == ss[1..][j - 1];
      }
    }
  }

  /** A set of strings has one sorted enumeration. */
  lemma {:induction false} SortedUnique(ss: seq<string>, ts: seq<string>)
    requires Sorted(ss) && Sorted(ts) && Distinct(ss) && Distinct(ts) && Elements(ss) == Elements(ts)
    ensures ss == ts
  {
    DistinctCount(ss);
    DistinctCount(ts);
    if ss != [] {
      assert ss[0] in Elements(ss) && (ts != [] ==> ts[0] in Elements(ts));
      if ss[0] != ts[0] {
        var i :| 0 <= i < |ss| && ss[i] == ts[0];
        var j :| 0 <= j < |ts| && ts[j] == ss[0];
        LeAntisymmetric(ss[0], ts[0]);
      }
      assert Elements(ss[1..]) == Elements(ss) - {ss[0]};
      assert Elements(ts[1..]) == Elements(ts) - {ts[0]};
      SortedUnique(ss[1..], ts[1..]);
    }
  }

  // The fields of a rule, in the order in which its key lists them

  ghost function Enumeration(s: set<string>): (ss: seq<string>)
    ensures Distinct(ss) && Elements(ss) == s
  {
    if s == {} then [] else
      var x :| x in s;
      var rest := Enumeration(s - {x});
      assert forall y :: y in rest <==> y in Elements(rest);
      [x] + rest
  }

  ghost function SortedFields(s: set<string>): (ss: seq<string>)
    ensures Sorted(ss) && Distinct(ss) && Elements(ss) == s && |ss| == |s|
  {
    var ss := SortStrings(Enumeration(s));
    SortSorts(Enumeration(s));
    DistinctCount(Enumeration(s));
    DistinctCount(ss);
    assert Elements(ss) == s;
    ss
  }

  lemma AnyOrderSorts(ss: seq<string>)
    requires Distinct(ss)
    ensures SortStrings(ss) == SortedFields(Elements(ss))
  {
    SortSorts(ss);
    DistinctCount(ss);
    DistinctCount(SortStrings(ss));
    assert Elements(SortStrings(ss)) == Elements(ss);
    SortedUnique(SortStrings(ss), SortedFields(Elements(ss)));
  }

  // Requests and keys

  datatype Request = Request(act: string, uid: string, ip: string, did: string, ext: map<string, string>) {
    function GetField(field: string): string {
      match field
      case "act" => act
      case "uid" => uid
      case "ip" => ip
      case "did" => did
      case _ => if field in ext then ext[field] else ""
    }
  }

  /** The field parts of a key. */
  function Parts(fields: seq<string>, value: string -> string): string {
    if fields == [] then "" else ":" + fields[0] + "=" + value(fields[0]) + Parts(fields[1..], value)
  }

  ghost function KeyOf(name: string, fields: set<string>, value: string -> string): string {
    "koala:" + name + Parts(SortedFields(fields), value)
  }

  ghost function RequestKey(name: string, fields: set<string>, req: Request): string {
    KeyOf(name, fields, req.GetField)
  }

  lemma {:induction false} PartsAppend(fields: seq<string>, last: string, value: string -> string)
    ensures Parts(fields + [last], value) == Parts(fields, value) + ":" + last + "=" + value(last)
  {
    if fields == [] {
      assert ([] + [last])[1..] == [];
    } else {
      assert (fields + [last])[1..] == fields[1..] + [last];
      PartsAppend(fields[1..], last, value);
    }
  }

  lemma PartsEmpty(value: string -> string)
    ensures Parts([], value) == ""
  {
  }

  lemma KeyStep(prefix: string, fields: seq<string>, i: nat, value: string -> string)
    requires i < |fields|
    ensures prefix + Parts(fields[..i + 1], value)
         == prefix + Parts(fields[..i], value) + ":" + fields[i] + "=" + value(fields[i])
  {
    assert fields[..i + 1] == fields[..i] + [fields[i]];
    PartsAppend(fields[..i], fields[i], value);
  }

  /** The fields of the condition map, in whatever order it is iterated. */
  method CollectFields(conditions: map<string, string>) returns (fields: seq<string>)
    ensures Distinct(fields) && Elements(fields) == conditions.Keys
  {
    fields := [];
    var rest := conditions.Keys;
    while rest != {}
      invariant Distinct(fields) && Elements(fields) + rest == conditions.Keys && Elements(fields) !! rest
    {
      var field :| field in rest;
      assert field !in Elements(fields);
      assert Elements(fields + [field]) == Elements(fields) + {field};
      fields := fields + [field];
      rest := rest - {field};
    }
  }

  /** The key is that of the sorted fields, whatever order they were collected in. */
  method GenerateKey(name: string, conditions: map<string, string>, req: Request) returns (key: string)
    ensures key == RequestKey(name, conditions.Keys, req)
  {
    hide Request.GetField, SortStrings, SortedFields, Parts;
    var fields := CollectFields(conditions);
    AnyOrderSorts(fields);
    var sorted := SortStrings(fields);
    key := "koala:" + name;
    PartsEmpty(req.GetField);
    for i := 0 to |sorted|
      invariant key == "koala:" + name + Parts(sorted[..i], req.GetField)
    {
      KeyStep("koala:" + name, sorted, i, req.GetField);
      key := key + ":" + sorted[i] + "=" + req.GetField(sorted[i]);
    }
    assert sorted[..|sorted|] == sorted;
  }

  // Separation

  predicate ColonFree(s: string) {
    ':' !in s
  }

  /** Heads without `c` of equal strings are equal when each is followed by nothing or by `c`. */
  lemma SplitAt(c: char, a: string, x: string, b: string, y: string)
    requires a + x == b + y && c !in a && c !in b
    requires (x == "" || x[0] == c) && (y == "" || y[0] == c)
    ensures a == b && x == y
  {
    var s := a + x;
    assert forall i :: 0 <= i < |a| ==> s[i] == a[i];
    assert forall i :: 0 <= i < |b| ==> s[i] == b[i];
    assert x != "" ==> s[|a|] == x[0];
    assert y != "" ==> s[|b|] == y[0];
    assert |a| == |b|;
    assert a == s[..|a|] && b == s[..|b|] && x == s[|a|..] && y == s[|b|..];
  }

  lemma DropHead(h: string, x: string, y: string)
    requires h + x == h + y
    ensures x == y
  {
    assert x == (h + x)[|h|..] && y == (h + y)[|h|..];
  }

  lemma {:induction false} PartsSeparate(fields: seq<string>, v: string -> string, w: string -> string)
    requires forall f :: f in fields ==> ColonFree(v(f)) && ColonFree(w(f))
    requires Parts(fields, v) == Parts(fields, w)
    ensures forall f :: f in fields ==> v(f) == w(f)
  {
    if fields != [] {
      var head := ":" + fields[0] + "=";
      var x, y := Parts(fields[1..], v), Parts(fields[1..], w);
      assert Parts(fields, v) == head + (v(fields[0]) + x) && Parts(fields, w) == head + (w(fields[0]) + y);
      DropHead(head, v(fields[0]) + x, w(fields[0]) + y);
      SplitAt(':', v(fields[0]), x, w(fields[0]), y);
      PartsSeparate(fields[1..], v, w);
    }
  }

  lemma {:induction false} PartsAgree(fields: seq<string>, v: string -> string, w: string -> string)
    requires forall f :: f in fields ==> v(f) == w(f)
    ensures Parts(fields, v) == Parts(fields, w)
  {
    if fields != [] {
      PartsAgree(fields[1..], v, w);
    }
  }

  /** With colon-free values, two keys of one rule are equal exactly when the requests agree on every field it matches. */
  lemma KeysSeparateRequests(name: string, fields: set<string>, v: string -> string, w: string -> string)
    requires forall f :: f in fields ==> ColonFree(v(f)) && ColonFree(w(f))
    ensures KeyOf(name, fields, v) == KeyOf(name, fields, w) <==> forall f :: f in fields ==> v(f) == w(f)
  {
    var fs := SortedFields(fields);
    assert forall f :: f in fs <==> f in Elements(fs);
    if KeyOf(name, fields, v) == KeyOf(name, fields, w) {
      DropHead("koala:" + name, Parts(fs, v), Parts(fs, w));
      PartsSeparate(fs, v, w);
    }
    if forall f :: f in fields ==> v(f) == w(f) {
      PartsAgree(fs, v, w);
    }
  }

  /** The suffixes under which the accumulate algorithm keeps its two counters, or none. */
  predicate IsSuffix(s: string) {
    s in {"", ":total", ":secondary"}
  }

  /** Rules with different colon-free names never share a key, whatever they match and whatever is appended. */
  lemma KeysSeparateRules(name: string, fields: set<string>, v: string -> string, suffix: string,
                          name': string, fields': set<string>, w: string -> string, suffix': string)
    requires ColonFree(name) && ColonFree(name') && name != name' && IsSuffix(suffix) && IsSuffix(suffix')
    ensures KeyOf(name, fields, v) + suffix != KeyOf(name', fields', w) + suffix'
  {
    hide SortedFields;
    var x, y := Parts(SortedFields(fields), v) + suffix, Parts(SortedFields(fields'), w) + suffix';
    assert KeyOf(name, fields, v) + suffix == "koala:" + (name + x);
    assert KeyOf(name', fields', w) + suffix' == "koala:" + (name' + y);
    if "koala:" + (name + x) == "koala:" + (name' + y) {
      DropHead("koala:", name + x, name' + y);
      SplitAt(':', name, x, name', y);
    }
  }

  /** Fields and values that a key shows without ambiguity. */
  predicate PlainPart(field: string, value: string) {
    ColonFree(field) && '=' !in field && ColonFree(value)
  }

  /** The parts from `fs` on, and a suffix. */
  function Rest(fs: seq<string>, v: string -> string, suffix: string): (r: string)
    requires IsSuffix(suffix)
    ensures r == "" || r[0] == ':'
  {
    Parts(fs, v) + suffix
  }

  lemma RestHead(fs: seq<string>, v: string -> string, suffix: string)
    requires fs != [] && IsSuffix(suffix)
    ensures Rest(fs, v, suffix) == ":" + ((fs[0] + ("=" + v(fs[0]))) + Rest(fs[1..], v, suffix))
  {
    Regroup(fs[0], v(fs[0]), Parts(fs[1..], v), suffix);
  }

  lemma Regroup(field: string, value: string, parts: string, suffix: string)
    ensures ":" + field + "=" + value + parts + suffix == ":" + ((field + ("=" + value)) + (parts + suffix))
  {
    assert ":" + field + "=" + value == ":" + (field + ("=" + value));
  }

  lemma PartSplits(f: string, a: string, x: string, f': string, b: string, y: string)
    requires PlainPart(f, a) && PlainPart(f', b) && (x == "" || x[0] == ':') && (y == "" || y[0] == ':')
    requires ":" + ((f + ("=" + a)) + x) == ":" + ((f' + ("=" + b)) + y)
    ensures f == f' && a == b && x == y
  {
    DropHead(":", (f + ("=" + a)) + x, (f' + ("=" + b)) + y);
    SplitAt(':', f + ("=" + a), x, f' + ("=" + b), y);
    SplitAt('=', f, "=" + a, f', "=" + b);
    DropHead("=", a, b);
  }

  lemma {:induction false} PartsDetermine(fs: seq<string>, v: string -> string, suffix: string,
                                          fs': seq<string>, w: string -> string, suffix': string)
    requires (forall f :: f in fs ==> PlainPart(f, v(f))) && (forall f :: f in fs' ==> PlainPart(f, w(f)))
    requires IsSuffix(suffix) && IsSuffix(suffix') && Rest(fs, v, suffix) == Rest(fs', w, suffix')
    ensures fs == fs' && suffix == suffix' && forall f :: f in fs ==> v(f) == w(f)
    decreases |fs| + |fs'|
  {
    hide PlainPart, IsSuffix, Rest;
    if fs == [] && fs' == [] {
      NoParts(v, suffix);
      NoParts(w, suffix');
    } else if fs == [] {
      NoFieldInSuffix(suffix, v, fs', w, suffix');
    } else if fs' == [] {
      NoFieldInSuffix(suffix', w, fs, v, suffix);
    } else {
      var x, y := Rest(fs[1..], v, suffix), Rest(fs'[1..], w, suffix');
      RestHead(fs, v, suffix);
      RestHead(fs', w, suffix');
      PartSplits(fs[0], v(fs[0]), x, fs'[0], w(fs'[0]), y);
      PartsDetermine(fs[1..], v, suffix, fs'[1..], w, suffix');
      assert fs == [fs[0]] + fs[1..] && fs' == [fs'[0]] + fs'[1..];
    }
  }

  lemma NoParts(v: string -> string, suffix: string)
    requires IsSuffix(suffix)
    ensures Rest([], v, suffix) == suffix
  {
  }

  /** A field part has an equals sign before the next colon, a suffix has none. */
  lemma NoFieldInSuffix(suffix: string, v: string -> string, fs: seq<string>, w: string -> string, suffix': string)
    requires fs != [] && PlainPart(fs[0], w(fs[0])) && IsSuffix(suffix) && IsSuffix(suffix')
    ensures Rest([], v, suffix) != Rest(fs, w, suffix')
  {
    RestHead(fs, w, suffix');
    NoParts(v, suffix);
    assert Rest(fs, w, suffix')[|fs[0]| + 1] == '=';
  }

  /**
   * With colon-free names, fields and values, and no equals sign in fields, a store key determines
   * the name, the set of fields, the values and the suffix it was made of.
   */
  lemma KeysDetermine(name: string, fields: set<string>, v: string -> string, suffix: string,
                      name': string, fields': set<string>, w: string -> string, suffix': string)
    requires ColonFree(name) && ColonFree(name') && IsSuffix(suffix) && IsSuffix(suffix')
    requires (forall f :: f in fields ==> PlainPart(f, v(f))) && (forall f :: f in fields' ==> PlainPart(f, w(f)))
    ensures KeyOf(name, fields, v) + suffix == KeyOf(name', fields', w) + suffix'
       <==> name == name' && fields == fields' && suffix == suffix' && forall f :: f in fields ==> v(f) == w(f)
  {
    hide PlainPart, IsSuffix, Rest, Parts;
    var fs, fs' := SortedFields(fields), SortedFields(fields');
    assert (forall f :: f in fs <==> f in Elements(fs)) && forall f :: f in fs' <==> f in Elements(fs');
    KeyShape(name, fields, v, suffix);
    KeyShape(name', fields', w, suffix');
    if KeyOf(name, fields, v) + suffix == KeyOf(name', fields', w) + suffix' {
      DropHead("koala:", name + Rest(fs, v, suffix), name' + Rest(fs', w, suffix'));
      SplitAt(':', name, Rest(fs, v, suffix), name', Rest(fs', w, suffix'));
      PartsDetermine(fs, v, suffix, fs', w, suffix');
    }
    if name == name' && fields == fields' && suffix == suffix' && forall f :: f in fields ==> v(f) == w(f) {
      PartsAgree(fs, v, w);
    }
  }

  lemma KeyShape(name: string, fields: set<string>, v: string -> string, suffix: string)
    requires IsSuffix(suffix)
    ensures KeyOf(name, fields, v) + suffix == "koala:" + (name + Rest(SortedFields(fields), v, suffix))
  {
  }

  /** The two counters of one accumulate rule, for any two requests, are different keys. */
  lemma SuffixesSeparate(k: string, k': string)
    ensures k + ":total" != k' + ":secondary"
    ensures k + ":total" == k' + ":total" <==> k == k'
    ensures k + ":secondary" == k' + ":secondary" <==> k == k'
  {
    var a, b := k + ":total", k' + ":secondary";
    assert a[|a| - 1] == 'l' && b[|b| - 1] == 'y';
    assert k == (k + ":total")[..|k + ":total"| - 6] && k' == (k' + ":total")[..|k' + ":total"| - 6];
    assert k == (k + ":secondary")[..|k + ":secondary"| - 10] && k' == (k' + ":secondary")[..|k' + ":secondary"| - 10];
  }

  // Over arbitrary values the keys of a rule are separate exactly when it matches at most one field.

  ghost predicate SeparatesAll(name: string, fields: set<string>) {
    forall v: string -> string, w: string -> string ::
      KeyOf(name, fields, v) == KeyOf(name, fields, w) ==> forall f :: f in fields ==> v(f) == w(f)
  }

  lemma TwoParts(a: string, b: string, rest: seq<string>, v: string -> string)
    ensures Parts([a, b] + rest, v) == (":" + a + "=") + v(a) + ((":" + b + "=") + v(b) + Parts(rest, v))
  {
    var fs := [a, b] + rest;
    assert fs[1..] == [b] + rest && fs[1..][1..] == rest;
  }

  lemma Collision(name: string, fields: set<string>)
    requires |fields| >= 2
    ensures !SeparatesAll(name, fields)
  {
    hide Parts, SortedFields;
    var fs := SortedFields(fields);
    var a, b := fs[0], fs[1];
    var shifted := ":" + b + "=";
    var v: string -> string := f => if f == a then shifted else "";
    var w: string -> string := f => if f == b then shifted else "";
    var rest := fs[2..];
    assert fs == [a, b] + rest;
    PartsAgree(rest, v, w);
    TwoParts(a, b, rest, v);
    TwoParts(a, b, rest, w);
    ShiftedPart(":" + a + "=", shifted, Parts(rest, v));
    assert KeyOf(name, fields, v) == KeyOf(name, fields, w);
    assert a in Elements(fs) && v(a) != w(a);
  }

  lemma ShiftedPart(head: string, part: string, tail: string)
    ensures head + part + (part + "" + tail) == head + "" + (part + part + tail)
  {
  }

  lemma KeysSeparateAllExact(name: string, fields: set<string>)
    ensures SeparatesAll(name, fields) <==> |fields| <= 1
  {
    if |fields| >= 2 {
      Collision(name, fields);
    } else {
      var fs := SortedFields(fields);
      forall v: string -> string, w: string -> string | KeyOf(name, fields, v) == KeyOf(name, fields, w)
        ensures forall f :: f in fields ==> v(f) == w(f)
      {
        DropHead("koala:" + name, Parts(fs, v), Parts(fs, w));
        if |fs| == 1 {
          var head := ":" + fs[0] + "=";
          assert fs[1..] == [];
          assert Parts(fs, v) == head + v(fs[0]) && Parts(fs, w) == head + w(fs[0]);
          DropHead(head, v(fs[0]), w(fs[0]));
          assert Elements(fs) == {fs[0]};
        }
      }
    }
  }

  // The text of a key, and which of the request's components it depends on

  /** Strings are ordered by their first different character, a prefix coming before what it is a prefix of. */
  lemma {:induction false} LeAtDifference(a: string, b: string, k: nat)
    requires k <= |a| && k <= |b| && a[..k] == b[..k] && (k < |a| ==> k < |b| && a[k] < b[k])
    ensures Le(a, b)
  {
    if k > 0 {
      assert a[0] == a[..k][0] && b[0] == b[..k][0];
      assert a[1..][..k - 1] == a[..k][1..] && b[1..][..k - 1] == b[..k][1..];
      LeAtDifference(a[1..], b[1..], k - 1);
    }
  }

  lemma SortedOne(field: string)
    ensures SortedFields({field}) == [field]
  {
    hide SortedFields;
    assert SortStrings([field]) == [field];
    assert Elements([field]) == {field};
    AnyOrderSorts([field]);
  }

  lemma SortedTwo(a: string, b: string)
    requires a != b && Le(a, b)
    ensures SortedFields({a, b}) == [a, b]
  {
    hide SortedFields;
    assert SortStrings([b]) == [b] && [a, b][1..] == [b];
    assert SortStrings([a, b]) == [a, b];
    assert Elements([a, b]) == {a, b};
    AnyOrderSorts([a, b]);
  }

  lemma KeyOfOne(name: string, field: string, req: Request)
    ensures RequestKey(name, {field}, req) == "koala:" + name + ":" + field + "=" + req.GetField(field)
  {
    hide SortedFields;
    SortedOne(field);
    assert [field][1..] == [];
    assert "koala:" + name + Parts([field], req.GetField) == "koala:" + name + ":" + field + "=" + req.GetField(field);
  }

  /** Of two fields the one that sorts first comes first. */
  lemma KeyOfTwo(name: string, a: string, b: string, k: nat, req: Request)
    requires a != b && k <= |a| && k <= |b| && a[..k] == b[..k] && (k < |a| ==> k < |b| && a[k] < b[k])
    ensures RequestKey(name, {a, b}, req)
         == "koala:" + name + ":" + a + "=" + req.GetField(a) + ":" + b + "=" + req.GetField(b)
  {
    hide SortedFields;
    LeAtDifference(a, b, k);
    SortedTwo(a, b);
    TwoParts(a, b, [], req.GetField);
    assert [a, b] + [] == [a, b];
    Regrouped("koala:" + name, a, req.GetField(a), b, req.GetField(b));
  }

  lemma Regrouped(head: string, a: string, v: string, b: string, w: string)
    ensures head + ((":" + a + "=") + v + ((":" + b + "=") + w + "")) == head + ":" + a + "=" + v + ":" + b + "=" + w
  {
  }

  /** A custom field, empty when the request lacks it. */
  function Custom(req: Request, field: string): string {
    if field in req.ext then req.ext[field] else ""
  }

  const STANDARD := {"act", "uid", "ip", "did"}

  /** The two requests agree on the components that the fields name. */
  ghost predicate Agree(fields: set<string>, req: Request, req': Request) {
    && ("act" in fields ==> req.act == req'.act)
    && ("uid" in fields ==> req.uid == req'.uid)
    && ("ip" in fields ==> req.ip == req'.ip)
    && ("did" in fields ==> req.did == req'.did)
    && (forall f :: f in fields && f !in STANDARD ==> Custom(req, f) == Custom(req', f))
  }

  lemma AgreeOnFields(fields: set<string>, req: Request, req': Request)
    ensures Agree(fields, req, req') <==> forall f :: f in fields ==> req.GetField(f) == req'.GetField(f)
  {
    forall f ensures f !in STANDARD ==> req.GetField(f) == Custom(req, f) && req'.GetField(f) == Custom(req', f) {
    }
    if forall f :: f in fields ==> req.GetField(f) == req'.GetField(f) {
      assert "act" in fields ==> req.GetField("act") == req'.GetField("act");
      assert "uid" in fields ==> req.GetField("uid") == req'.GetField("uid");
      assert "ip" in fields ==> req.GetField("ip") == req'.GetField("ip");
      assert "did" in fields ==> req.GetField("did") == req'.GetField("did");
    }
  }

  /** With colon-free values a rule's key is shared by exactly the requests that agree on the components it matches. */
  lemma SharedKeyExactly(name: string, fields: set<string>, req: Request, req': Request)
    requires forall f :: f in fields ==> ColonFree(req.GetField(f)) && ColonFree(req'.GetField(f))
    ensures RequestKey(name, fields, req) == RequestKey(name, fields, req') <==> Agree(fields, req, req')
  {
    hide Agree, Request.GetField, KeyOf;
    KeysSeparateRequests(name, fields, req.GetField, req'.GetField);
    AgreeOnFields(fields, req, req');
  }

  /** With one field that is so whatever the values are, and whatever else the requests hold. */
  lemma OneFieldExactly(name: string, req: Request, req': Request)
    ensures RequestKey(name, {"act"}, req) == RequestKey(name, {"act"}, req') <==> req.act == req'.act
    ensures RequestKey(name, {"uid"}, req) == RequestKey(name, {"uid"}, req') <==> req.uid == req'.uid
    ensures RequestKey(name, {"ip"}, req) == RequestKey(name, {"ip"}, req') <==> req.ip == req'.ip
    ensures RequestKey(name, {"did"}, req) == RequestKey(name, {"did"}, req') <==> req.did == req'.did
    ensures forall f :: f !in {"act", "uid", "ip", "did"} ==>
              (RequestKey(name, {f}, req) == RequestKey(name, {f}, req')
               <==> (if f in req.ext then req.ext[f] else "") == (if f in req'.ext then req'.ext[f] else ""))
  {
    hide KeyOf;
    forall f ensures RequestKey(name, {f}, req) == RequestKey(name, {f}, req') <==> req.GetField(f) == req'.GetField(f) {
      KeyOfOne(name, f, req);
      KeyOfOne(name, f, req');
      var head := "koala:" + name + ":" + f + "=";
      if head + req.GetField(f) == head + req'.GetField(f) {
        DropHead(head, req.GetField(f), req'.GetField(f));
      }
    }
  }
}
