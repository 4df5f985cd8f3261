/**
 * `StringMap`: a map from strings to strings, used as the filter of a table,
 * that binds itself from the query-string parameters `key.k` and unbinds
 * itself to `&`-separated `key.k=v` sequences. Java's `HashMap` visits its
 * entries in an order it does not specify; the methods here visit them in any
 * order, and what they promise holds for every order.
 */
module StringMaps {
  import opened Wrappers
  import opened JavaLang
  import opened FormUrlEncoding

  /** The names in `names` that start with `prefix`, with the prefix taken off. */
  function Suffixes(names: set<string>, prefix: string): (s: set<string>)
    ensures forall k :: k in s <==> prefix + k in names
  {
    var s := set n | n in names && StartsWith(n, prefix) :: n[|prefix|..];
    assert forall k :: prefix + k in names ==> StartsWith(prefix + k, prefix) && (prefix + k)[|prefix|..] == k;
    assert forall n :: n in names && StartsWith(n, prefix) ==> prefix + n[|prefix|..] == n;
    s
  }

  /** The parameter `name` has exactly one value, and it is not blank after trimming. */
  predicate Contributes(data: map<string, seq<string>>, name: string) {
    name in data && |data[name]| == 1 && !TrimIsEmpty(data[name][0])
  }

  /** The entries that the parameters in `names` contribute under `prefix`:
      each parameter `prefix + k` with exactly one value that is not blank
      after trimming gives `k` that value. */
  function Collected(data: map<string, seq<string>>, prefix: string, names: set<string>): map<string, string>
  {
    map k | k in Suffixes(names, prefix) && Contributes(data, prefix + k) :: data[prefix + k][0]
  }

  /** Some parameter in `names` under `prefix` has more than one value. */
  predicate HasMultiValued(data: map<string, seq<string>>, prefix: string, names: set<string>) {
    exists n :: n in names && n in data && StartsWith(n, prefix) && |data[n]| > 1
  }

  lemma CollectedStep(data: map<string, seq<string>>, prefix: string, names: set<string>, n: string)
    requires n in data && n !in names
    ensures Collected(data, prefix, names + {n}) ==
      if StartsWith(n, prefix) && Contributes(data, n)
      then Collected(data, prefix, names)[n[|prefix|..] := data[n][0]]
      else Collected(data, prefix, names)
  {
    if StartsWith(n, prefix) {
      assert prefix + n[|prefix|..] == n;
    }
  }

  /** One parameter visited by `bind`: what it adds to the entries, and that
      no parameter visited so far is multi-valued unless this one is. */
  lemma BindStep(initial: map<string, string>, entries: map<string, string>,
                 data: map<string, seq<string>>, prefix: string, done: set<string>, name: string)
    requires name in data && name !in done
    requires entries == initial + Collected(data, prefix, done)
    ensures (if StartsWith(name, prefix) && Contributes(data, name) then entries[name[|prefix|..] := data[name][0]] else entries)
      == initial + Collected(data, prefix, done + {name})
    ensures StartsWith(name, prefix) && |data[name]| > 1 ==> HasMultiValued(data, prefix, done + {name})
    ensures !HasMultiValued(data, prefix, done) && !(StartsWith(name, prefix) && |data[name]| > 1)
      ==> !HasMultiValued(data, prefix, done + {name})
  {
    CollectedStep(data, prefix, done, name);
  }

  /** The entries whose value is not blank after trimming: what `unbind` writes. */
  function NonBlank(m: map<string, string>): (r: map<string, string>)
    ensures forall k :: k in r <==> k in m && !TrimIsEmpty(m[k])
    ensures forall k :: k in r ==> r[k] == m[k]
  {
    map k | k in m && !TrimIsEmpty(m[k]) :: m[k]
  }

  /** Each of the keys exactly once. */
  ghost predicate IsEnumeration(order: seq<string>, keys: set<string>) {
    && Distinct(order)
    && (forall k :: k in order <==> k in keys)
  }

  predicate Distinct(s: seq<string>) {
    forall i, j :: 0 <= i < j < |s| ==> s[i] != s[j]
  }

  /** The keys in `order` that `unbind` writes: those of `m` whose value is
      not blank after trimming. */
  function Kept(m: map<string, string>, order: seq<string>): (ks: seq<string>)
    ensures forall k :: k in ks <==> k in order && k in m && !TrimIsEmpty(m[k])
    ensures Distinct(order) ==> Distinct(ks)
    decreases |order|
  {
    if order == [] then []
    else
      var k := order[|order| - 1];
      var init := order[..|order| - 1];
      assert forall j :: j in init ==> j in order;
      Kept(m, init) + (if k in m && !TrimIsEmpty(m[k]) then [k] else [])
  }

  /** The kept keys of two runs of keys are those of the first run followed by
      those of the second: `unbind` keeps the visiting order. */
  lemma {:induction false} KeptConcat(m: map<string, string>, a: seq<string>, b: seq<string>)
    ensures Kept(m, a + b) == Kept(m, a) + Kept(m, b)
    decreases |b|
  {
    if b == [] {
      assert a + b == a;
    } else {
      var init := b[..|b| - 1];
      assert (a + b)[..|a + b| - 1] == a + init;
      KeptConcat(m, a, init);
    }
  }

  /** A single key is kept exactly when its value is not blank after trimming. */
  lemma KeptOfOne(m: map<string, string>, k: string)
    ensures Kept(m, [k]) == if k in m && !TrimIsEmpty(m[k]) then [k] else []
  {
    assert [k][..0] == [];
  }

  /** The parameters `unbind(key)` writes when it visits the keys of `m` in
      `order`: `key.k` with the value of `k`, for each value that is not blank
      after trimming. */
  function UnbindFields(m: map<string, string>, key: string, order: seq<string>): (fs: seq<(string, string)>)
    ensures var ks := Kept(m, order);
      |fs| == |ks| && forall i :: 0 <= i < |fs| ==> fs[i] == (key + "." + ks[i], m[ks[i]])
    decreases |order|
  {
    if order == [] then []
    else
      var k := order[|order| - 1];
      UnbindFields(m, key, order[..|order| - 1])
        + (if k in m && !TrimIsEmpty(m[k]) then [(key + "." + k, m[k])] else [])
  }

  /** `unbind` throws (`substring(1)` of an empty builder) when the map has
      entries but every value is blank after trimming. */
  ghost predicate CanUnbind(m: map<string, string>) {
    m == map[] || exists k :: k in m && !TrimIsEmpty(m[k])
  }

  /** The text `unbind(key)` returns when it visits the keys in `order`. */
  function UnbindText(m: map<string, string>, key: string, order: seq<string>): string
    requires CanUnbind(m) && IsEnumeration(order, m.Keys)
  {
    if m == map[] then ""
    else
      var k :| k in m && !TrimIsEmpty(m[k]);
      assert k in Kept(m, order);
      FieldsText(UnbindFields(m, key, order))
  }

  /** The contents of the `StringBuilder`: each sequence preceded by '&'. */
  function Ampersanded(segs: seq<string>): string
    decreases |segs|
  {
    if segs == [] then "" else Ampersanded(segs[..|segs| - 1]) + "&" + segs[|segs| - 1]
  }

  lemma {:induction false} AmpersandedJoin(segs: seq<string>)
    requires |segs| > 0
    ensures Ampersanded(segs) == "&" + Join(segs, '&')
    decreases |segs|
  {
    if |segs| > 1 {
      var init := segs[..|segs| - 1];
      AmpersandedJoin(init);
      JoinAppend(init, [segs[|segs| - 1]], '&');
      assert init + [segs[|segs| - 1]] == segs;
    }
  }

  /** The name `key.k` of entry `k`. */
  lemma DottedName(key: string, k: string)
    ensures StartsWith(key + "." + k, key + ".")
    ensures (key + "." + k)[|key| + 1..] == k
    ensures IsSafeName(key) && IsSafeName(k) ==> IsSafeName(key + "." + k)
  {
    var n := key + "." + k;
    assert n[..|key| + 1] == key + ".";
    if IsSafeName(key) && IsSafeName(k) {
      forall j | 0 <= j < |n| ensures IsUnreserved(n[j]) {
        if j < |key| {
          assert n[j] == key[j];
        } else if j > |key| {
          assert n[j] == k[j - |key| - 1];
        }
      }
    }
  }

  /** Parameters under `prefix` that name exactly the keys of `m`, each with the
      one value that `m` gives it, bind to `m`. */
  lemma CollectedExactly(data: map<string, seq<string>>, prefix: string, m: map<string, string>)
    requires forall k :: k in m ==> prefix + k in data && data[prefix + k] == [m[k]] && !TrimIsEmpty(m[k])
    requires forall k :: prefix + k in data ==> k in m
    ensures Collected(data, prefix, data.Keys) == m
    ensures !HasMultiValued(data, prefix, data.Keys)
  {
    forall n | n in data && StartsWith(n, prefix) ensures |data[n]| == 1 {
      assert prefix + n[|prefix|..] == n;
    }
  }

  /** The parameters `unbind` writes are well formed when the key and the map
      keys need no encoding and the values are ASCII. */
  lemma UnbindFieldsWellFormed(m: map<string, string>, key: string, order: seq<string>)
    requires IsSafeName(key) && Distinct(order)
    requires forall k :: k in m ==> IsSafeName(k) && IsAscii(m[k])
    ensures WellFormedFields(UnbindFields(m, key, order))
  {
    var fs := UnbindFields(m, key, order);
    var ks := Kept(m, order);
    forall i | 0 <= i < |fs| ensures IsSafeName(fs[i].0) && IsAscii(fs[i].1) {
      assert ks[i] in ks;
      DottedName(key, ks[i]);
    }
    forall i, j | 0 <= i < j < |fs| ensures fs[i].0 != fs[j].0 {
      DottedName(key, ks[i]);
      DottedName(key, ks[j]);
    }
  }

  /** Parameters among which those under `key.` are exactly the ones `unbind`
      writes bind to the entries whose value is not blank. */
  lemma UnbindFieldsBind(m: map<string, string>, key: string, order: seq<string>,
                         data: map<string, seq<string>>)
    requires IsEnumeration(order, m.Keys)
    requires Present(UnbindFields(m, key, order), data)
    requires forall n :: n in data && StartsWith(n, key + ".") ==> n[|key| + 1..] in Kept(m, order)
    ensures Collected(data, key + ".", data.Keys) == NonBlank(m)
    ensures !HasMultiValued(data, key + ".", data.Keys)
  {
    var prefix := key + ".";
    var r := NonBlank(m);
    WrittenEntriesPresent(m, key, order, data);
    forall k | prefix + k in data ensures k in r {
      DottedName(key, k);
      assert k in Kept(m, order);
    }
    CollectedExactly(data, prefix, r);
  }

  /** Each entry `unbind` writes is among the parameters with its one value. */
  lemma WrittenEntriesPresent(m: map<string, string>, key: string, order: seq<string>,
                              data: map<string, seq<string>>)
    requires Present(UnbindFields(m, key, order), data)
    ensures forall k :: k in NonBlank(m) && k in order ==> key + "." + k in data && data[key + "." + k] == [m[k]]
  {
    var fs := UnbindFields(m, key, order);
    var ks := Kept(m, order);
    forall k | k in NonBlank(m) && k in order ensures key + "." + k in data && data[key + "." + k] == [m[k]] {
      var i :| 0 <= i < |ks| && ks[i] == k;
      assert fs[i] == (key + "." + k, m[k]);
      assert fs[i].0 in data && data[fs[i].0] == [fs[i].1];
    }
  }

  /** Reading back the text of the fields `unbind` writes yields each of them,
      and nothing else under `key.`. */
  lemma UnbindFieldsParsed(m: map<string, string>, key: string, order: seq<string>)
    requires IsSafeName(key) && Distinct(order) && Kept(m, order) != []
    requires forall k :: k in m ==> IsSafeName(k) && IsAscii(m[k])
    ensures var data := ParseQuery(FieldsText(UnbindFields(m, key, order)));
      Present(UnbindFields(m, key, order), data)
      && forall n :: n in data && StartsWith(n, key + ".") ==> n[|key| + 1..] in Kept(m, order)
  {
    var fs := UnbindFields(m, key, order);
    var ks := Kept(m, order);
    var data := ParseQuery(FieldsText(fs));
    UnbindFieldsWellFormed(m, key, order);
    ParseFieldsText(fs);
    UnbindFieldNames(m, key, order);
  }

  /** Each name `unbind` writes is `key.k` for a kept key `k`. */
  lemma UnbindFieldNames(m: map<string, string>, key: string, order: seq<string>)
    ensures forall n :: n in Names(UnbindFields(m, key, order)) ==> n[|key| + 1..] in Kept(m, order)
  {
    var fs := UnbindFields(m, key, order);
    var ks := Kept(m, order);
    forall n | n in Names(fs) ensures n[|key| + 1..] in ks {
      var i :| 0 <= i < |fs| && fs[i].0 == n;
      DottedName(key, ks[i]);
    }
  }

  /** Round trip: binding the query string that `unbind(key)` writes gives back
      the entries whose value is not blank after trimming, when the key and the
      map keys need no encoding and the values are ASCII. */
  lemma StringMapRoundTrip(m: map<string, string>, key: string, order: seq<string>)
    requires IsSafeName(key) && CanUnbind(m) && IsEnumeration(order, m.Keys)
    requires forall k :: k in m ==> IsSafeName(k) && IsAscii(m[k])
    ensures var data := ParseQuery(UnbindText(m, key, order));
      Collected(data, key + ".", data.Keys) == NonBlank(m) && !HasMultiValued(data, key + ".", data.Keys)
  {
    if m == map[] {
      assert Split("", '&') == [""];
      assert ParseQuery(UnbindText(m, key, order)) == map[];
    } else {
      var k :| k in m && !TrimIsEmpty(m[k]);
      assert k in Kept(m, order);
      UnbindFieldsParsed(m, key, order);
      UnbindFieldsBind(m, key, order, ParseQuery(FieldsText(UnbindFields(m, key, order))));
    }
  }

  /** `bind` ignores the parameters that do not start with `key.`: adding one
      changes neither what it puts nor whether it fails. */
  lemma BindIgnoresOtherParameters(data: map<string, seq<string>>, prefix: string, n: string, values: seq<string>)
    requires n !in data && !StartsWith(n, prefix)
    ensures Collected(data[n := values], prefix, data.Keys + {n}) == Collected(data, prefix, data.Keys)
    ensures HasMultiValued(data[n := values], prefix, data.Keys + {n}) == HasMultiValued(data, prefix, data.Keys)
  {
    var data' := data[n := values];
    CollectedStep(data', prefix, data.Keys, n);
    var a, b := Collected(data', prefix, data.Keys), Collected(data, prefix, data.Keys);
    forall k ensures k in a <==> k in b {
      if prefix + k in data.Keys {
        assert data'[prefix + k] == data[prefix + k];
      }
    }
    assert a == b;
    if HasMultiValued(data', prefix, data'.Keys) {
      var m :| m in data'.Keys && m in data' && StartsWith(m, prefix) && |data'[m]| > 1;
      assert m in data;
    }
  }

  /** `isBlank` and `trim().isEmpty()` differ: a copy can keep a value made of
      control characters that `unbind` then skips, and a map holding only
      such a value cannot be unbound. */
  lemma CopyMayNotUnbind(source: map<string, string>, entries: map<string, string>)
    requires source == map["k" := "\0"]
    requires forall k :: k in entries <==> k in ["k"] && k in source && !IsBlank(source[k])
    requires forall k :: k in entries ==> entries[k] == source[k]
    ensures entries == source && !CanUnbind(entries)
  {
    assert !IsWhitespace("\0"[0]);
    assert "k" in entries;
  }

  /** `StringMap`: its entries are a `HashMap`, filled in place by its
      constructors and by `bind`. */
  class StringMap {
    var entries: map<string, string>

    /** `new StringMap()`: no entries. */
    constructor ()
      ensures entries == map[]
    {
      entries := map[];
    }

    /** `new StringMap(source, keys...)`: the listed keys whose value in
        `source` is present and not blank, with that value. */
    constructor Copy(source: map<string, string>, keys: seq<string>)
      ensures forall k :: k in entries <==> k in keys && k in source && !IsBlank(source[k])
      ensures forall k :: k in entries ==> entries[k] == source[k]
    {
      var m: map<string, string> := map[];
      for i := 0 to |keys|
        invariant forall k :: k in m <==> k in keys[..i] && k in source && !IsBlank(source[k])
        invariant forall k :: k in m ==> m[k] == source[k]
      {
        var key := keys[i];
        var value := if key in source then Some(source[key]) else None;
        if value.Some? && !IsBlank(value.value) {
          m := m[key := value.value];
        }
        assert keys[..i + 1] == keys[..i] + [key];
      }
      assert keys[..|keys|] == keys;
      entries := m;
    }

    /** `bind(key, data)`: puts the one value of each parameter `key.k` under
        `k`, skipping values that are blank after trimming; a parameter `key.k`
        with more than one value makes it fail at once, and what it put before
        stays. Other parameters are ignored and other entries keep their value. */
    method Bind(key: string, data: map<string, seq<string>>) returns (ok: bool)
      modifies this
      ensures ok <==> !HasMultiValued(data, key + ".", data.Keys)
      ensures ok ==> entries == old(entries) + Collected(data, key + ".", data.Keys)
      ensures !ok ==> exists names :: names <= data.Keys && entries == old(entries) + Collected(data, key + ".", names)
    {
      var prefix := key + ".";
      var remaining := data.Keys;
      ghost var done: set<string> := {};
      while remaining != {}
        invariant remaining !! done && remaining + done == data.Keys
        invariant entries == old(entries) + Collected(data, prefix, done)
        invariant !HasMultiValued(data, prefix, done)
        decreases remaining
      {
        var name :| name in remaining;
        var values := data[name];
        BindStep(old(entries), entries, data, prefix, done, name);
        if StartsWith(name, prefix) {
          if |values| > 1 {
            assert name in data.Keys;
            return false;
          } else if |values| == 1 && !TrimIsEmpty(values[0]) {
            entries := entries[name[|prefix|..] := values[0]];
          }
        }
        remaining := remaining - {name};
        done := done + {name};
      }
      return true;
    }

    /** `unbind(key)`: "" for an empty map, otherwise the `key.k=v` sequences
        of the entries with a value that is not blank after trimming, joined by
        '&' in the order the entries are visited (returned as `order`). */
    method Unbind(key: string) returns (r: string, ghost order: seq<string>)
      requires CanUnbind(entries)
      ensures IsEnumeration(order, entries.Keys)
      ensures r == UnbindText(entries, key, order)
    {
      order := [];
      if entries == map[] {
        return "", order;
      }
      var builder := "";
      var remaining := entries.Keys;
      while remaining != {}
        invariant remaining <= entries.Keys
        invariant forall k :: k in order <==> k in entries && k !in remaining
        invariant Distinct(order)
        invariant builder == Ampersanded(FieldSegments(UnbindFields(entries, key, order)))
        decreases remaining
      {
        var k := PickKey(remaining);
        var value := entries[k];
        BuilderStep(entries, key, order, k, builder);
        if !TrimIsEmpty(value) {
          builder := builder + "&" + key + "." + k + "=" + Encode(value);
        }
        VisitStep(entries.Keys, remaining, order, k);
        remaining := remaining - {k};
        order := order + [k];
      }
      BuilderHoldsText(entries, key, order);
      r := builder[1..];
    }
  }

  /** Visiting a key not visited before keeps the visited keys apart from the
      remaining ones, and pairwise different. */
  lemma VisitStep(keys: set<string>, remaining: set<string>, order: seq<string>, k: string)
    requires k in remaining && remaining <= keys && Distinct(order)
    requires forall j :: j in order <==> j in keys && j !in remaining
    ensures Distinct(order + [k])
    ensures forall j :: j in order + [k] <==> j in keys && j !in remaining - {k}
  {
  }

  /** After the last entry the builder holds '&' followed by the text of
      `unbind`. */
  lemma BuilderHoldsText(m: map<string, string>, key: string, order: seq<string>)
    requires m != map[] && CanUnbind(m) && IsEnumeration(order, m.Keys)
    ensures var b := Ampersanded(FieldSegments(UnbindFields(m, key, order)));
      |b| > 0 && b[1..] == UnbindText(m, key, order)
  {
    var k :| k in m && !TrimIsEmpty(m[k]);
    assert k in Kept(m, order);
    AmpersandedJoin(FieldSegments(UnbindFields(m, key, order)));
  }

  /** The `HashMap` visits its keys in an order of its own. */
  method PickKey(keys: set<string>) returns (k: string)
    requires keys != {}
    ensures k in keys
  {
    k :| k in keys;
  }

  /** Visiting one more entry appends its sequence to the builder when its
      value is not blank after trimming. */
  lemma BuilderStep(m: map<string, string>, key: string, order: seq<string>, k: string, builder: string)
    requires k in m && builder == Ampersanded(FieldSegments(UnbindFields(m, key, order)))
    ensures Ampersanded(FieldSegments(UnbindFields(m, key, order + [k]))) ==
      if TrimIsEmpty(m[k]) then builder else builder + "&" + key + "." + k + "=" + Encode(m[k])
  {
    var fs := UnbindFields(m, key, order);
    assert (order + [k])[..|order|] == order;
    if TrimIsEmpty(m[k]) {
      assert UnbindFields(m, key, order + [k]) == fs;
    } else {
      var f := (key + "." + k, m[k]);
      var text := FieldText(f.0, f.1);
      calc {
        Ampersanded(FieldSegments(UnbindFields(m, key, order + [k])));
        { assert UnbindFields(m, key, order + [k]) == fs + [f]; }
        Ampersanded(FieldSegments(fs + [f]));
        { SegmentsAppend(fs, f); }
        Ampersanded(FieldSegments(fs) + [text]);
        { AmpersandedAppend(FieldSegments(fs), text); }
        builder + "&" + text;
        { BuilderText(builder, key, k, Encode(m[k])); }
        builder + "&" + key + "." + k + "=" + Encode(m[k]);
      }
    }
  }

  lemma BuilderText(builder: string, key: string, k: string, encoded: string)
    ensures builder + "&" + (key + "." + k + "=" + encoded) == builder + "&" + key + "." + k + "=" + encoded
  {
  }

  lemma SegmentsAppend(fs: seq<(string, string)>, f: (string, string))
    ensures FieldSegments(fs + [f]) == FieldSegments(fs) + [FieldText(f.0, f.1)]
  {
  }

  lemma AmpersandedAppend(segs: seq<string>, s: string)
    ensures Ampersanded(segs + [s]) == Ampersanded(segs) + "&" + s
  {
    assert (segs + [s])[..|segs|] == segs;
  }
}
