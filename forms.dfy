/**
 * The form helpers for repeating fields: they collect the indices `i` of the
 * raw form fields named `name[i]` or `name[i].something`, fall back on the
 * keys or the length of the collection backing the form when there are none,
 * and return them ascending and without duplicates, or the field names
 * `name[i]` built from them.
 *
 * The raw field names are given in the order the form data's key set visits
 * them. The collection behind the form, which the library reads by
 * reflection, is given as an optional key list or an optional length: absent
 * when the form has no value, the property is not readable or it is null.
 */
module Forms {
  import opened Wrappers
  import opened JavaLang
  import opened SortedSets
  import opened FormUrlEncoding

  /** The length of a Java array or list. */
  type Length = n: int | 0 <= n <= MaxInt

  /** `extractKey(str, extendedKeyName)`: for a name that starts with
      `extendedKeyName`, the text from there up to the first ']'; absent when
      the name does not start so or has no ']'. */
  function ExtractKey(str: string, extendedKeyName: string): (r: Option<string>)
    requires ']' !in extendedKeyName
    ensures r.Some? <==> StartsWith(str, extendedKeyName) && ']' in str[|extendedKeyName|..]
    ensures r.Some? ==> && ']' !in r.value
                        && |extendedKeyName| + |r.value| < |str|
                        && str[..|extendedKeyName| + |r.value| + 1] == extendedKeyName + r.value + "]"
  {
    if StartsWith(str, extendedKeyName) then
      var pos := IndexOf(str, ']');
      assert pos < 0 || pos >= |extendedKeyName|;
      assert ']' in str[|extendedKeyName|..] ==> pos >= 0 by {
        if ']' in str[|extendedKeyName|..] {
          var j :| 0 <= j < |str| - |extendedKeyName| && str[|extendedKeyName|..][j] == ']';
          assert str[|extendedKeyName| + j] == ']';
        }
      }
      if pos < 0 then None
      else
        var r := str[|extendedKeyName|..pos];
        assert ']' !in r by {
          assert r == str[..pos][|extendedKeyName|..];
        }
        assert str[..pos + 1] == extendedKeyName + r + "]";
        Some(r)
    else None
  }

  /** `getStringKeysFromFormData(form, key)`: the index text of each raw field
      name `key[...]`, in the order of the raw names, duplicates kept. */
  function StringKeysFromFormData(raw: seq<string>, key: string): (r: seq<string>)
    requires ']' !in key
    ensures forall x :: x in r <==> exists s :: s in raw && ExtractKey(s, key + "[") == Some(x)
    decreases |raw|
  {
    if raw == [] then []
    else
      var init := StringKeysFromFormData(raw[..|raw| - 1], key);
      var last := raw[|raw| - 1];
      assert forall s :: s in raw <==> s in raw[..|raw| - 1] || s == last;
      match ExtractKey(last, key + "[")
      case None => init
      case Some(x) => init + [x]
  }

  /** `map(Integer::parseInt)` over a list: absent when one of them throws. */
  function ParseAll(texts: seq<string>): (r: Option<seq<Int32>>)
    ensures r.Some? <==> forall i :: 0 <= i < |texts| ==> ParseInt(texts[i]).Some?
    ensures r.Some? ==> |r.value| == |texts| && forall i :: 0 <= i < |texts| ==> ParseInt(texts[i]) == Some(r.value[i])
    decreases |texts|
  {
    if texts == [] then Some([])
    else
      match ParseAll(texts[..|texts| - 1])
      case None => None
      case Some(init) =>
        match ParseInt(texts[|texts| - 1])
        case None => None
        case Some(n) => Some(init + [n])
  }

  /** `getIntKeysFromFormData(form, key)`: the indices of the raw field names
      `key[...]` as integers; absent when one of them is not an integer
      (`NumberFormatException`). */
  function IntKeysFromFormData(raw: seq<string>, key: string): (r: Option<seq<Int32>>)
    requires ']' !in key
    ensures var texts := StringKeysFromFormData(raw, key);
      && (r.Some? <==> forall x :: x in texts ==> ParseInt(x).Some?)
      && (r.Some? ==> |r.value| == |texts| && forall i :: 0 <= i < |texts| ==> ParseInt(texts[i]) == Some(r.value[i]))
  {
    ParseAll(StringKeysFromFormData(raw, key))
  }

  /** `stringMapKeys(form, mapName)`: the string indices of the form data or,
      when there are none, the keys of the backing map, in the natural order of
      strings and without duplicates. */
  function StringMapKeys(raw: seq<string>, mapName: string, backing: Option<seq<string>>): (r: seq<string>)
    requires ']' !in mapName
    ensures Increasing(r, StringOrder)
    ensures var keys := StringKeysFromFormData(raw, mapName);
      forall x :: x in r <==> if keys == [] && backing.Some? then x in backing.value else x in keys
  {
    var keys := StringKeysFromFormData(raw, mapName);
    var collected := if keys == [] && backing.Some? then backing.value else keys;
    StringOrderIsTotal();
    TreeSetOfTotal(collected, StringOrder);
    TreeSetOf(collected, StringOrder)
  }

  /** `intMapKeys(form, mapName)`: the integer indices of the form data or,
      when there are none, the keys of the backing map, ascending by absolute
      value; of two keys with the same absolute value the first one added
      stays. Absent when an index of the form data is not an integer. */
  function IntMapKeys(raw: seq<string>, mapName: string, backing: Option<seq<Int32>>): (r: Option<seq<Int32>>)
    requires ']' !in mapName
    ensures r.Some? <==> IntKeysFromFormData(raw, mapName).Some?
    ensures r.Some? ==> var keys := IntKeysFromFormData(raw, mapName).value;
      var collected := if keys == [] && backing.Some? then backing.value else keys;
      && Increasing(r.value, AbsOrder)
      && (forall x :: x in r.value ==> x in collected)
      && (forall i :: 0 <= i < |collected| ==> exists x :: x in r.value && JavaAbs(x) == JavaAbs(collected[i]))
      && HoldsFirstOfEachAbs(r.value, collected)
  {
    match IntKeysFromFormData(raw, mapName)
    case None => None
    case Some(keys) =>
      var collected := if keys == [] && backing.Some? then backing.value else keys;
      AbsOrderIsStrict();
      TreeSetOfProperties(collected, AbsOrder);
      AbsTreeSetHoldsFirsts(collected);
      Some(TreeSetOf(collected, AbsOrder))
  }

  /** Each key whose absolute value no earlier key has is in `r`: of the keys
      with the same absolute value, the first one stays. */
  ghost predicate HoldsFirstOfEachAbs(r: seq<Int32>, keys: seq<Int32>) {
    forall i :: 0 <= i < |keys| && (forall j :: 0 <= j < i ==> JavaAbs(keys[j]) != JavaAbs(keys[i])) ==> keys[i] in r
  }

  lemma AbsTreeSetHoldsFirsts(keys: seq<Int32>)
    ensures HoldsFirstOfEachAbs(TreeSetOf(keys, AbsOrder), keys)
  {
    AbsOrderIsStrict();
    forall i | 0 <= i < |keys| && (forall j :: 0 <= j < i ==> JavaAbs(keys[j]) != JavaAbs(keys[i]))
      ensures keys[i] in TreeSetOf(keys, AbsOrder)
    {
      TreeSetOfKeepsFirst(keys, AbsOrder, i);
    }
  }

  /** What `arrayIndices` and `listIndices` return for the indices `keys` of
      the form data: ascending, and either `0` up to the length of the backing
      collection, when the form data has no indices and there is one, or
      exactly the indices of the form data. */
  ghost predicate IsIndexList(indices: seq<Int32>, keys: seq<Int32>, backingLength: Option<Length>) {
    && Increasing(indices, IntOrder)
    && if keys == [] && backingLength.Some? then
         |indices| == backingLength.value && forall i :: 0 <= i < |indices| ==> indices[i] == i
       else
         forall x :: x in indices <==> x in keys
  }

  /** `arrayIndices(form, arrayName)`: the integer indices of the form data,
      ascending and without duplicates or, when there are none, `0` up to the
      length of the backing array. Absent when an index of the form data is
      not an integer. */
  method ArrayIndices(raw: seq<string>, arrayName: string, backingLength: Option<Length>) returns (r: Option<seq<Int32>>)
    requires ']' !in arrayName
    ensures r.Some? <==> IntKeysFromFormData(raw, arrayName).Some?
    ensures r.Some? ==> IsIndexList(r.value, IntKeysFromFormData(raw, arrayName).value, backingLength)
  {
    var keys := IntKeysFromFormData(raw, arrayName);
    if keys.None? {
      return None;
    }
    if keys.value == [] && backingLength.Some? {
      var n := backingLength.value;
      var indices: seq<Int32> := [];
      for i := 0 to n
        invariant |indices| == i
        invariant forall j :: 0 <= j < i ==> indices[j] == j
      {
        indices := indices + [i];
      }
      return Some(indices);
    }
    IntOrderIsTotal();
    TreeSetOfTotal(keys.value, IntOrder);
    return Some(TreeSetOf(keys.value, IntOrder));
  }

  /** `listIndices(form, listName)`: as `arrayIndices`, with the size of the
      backing list. */
  method ListIndices(raw: seq<string>, listName: string, backingSize: Option<Length>) returns (r: Option<seq<Int32>>)
    requires ']' !in listName
    ensures r.Some? <==> IntKeysFromFormData(raw, listName).Some?
    ensures r.Some? ==> IsIndexList(r.value, IntKeysFromFormData(raw, listName).value, backingSize)
  {
    r := ArrayIndices(raw, listName, backingSize);
  }

  /** The names of the fields the `*Fields` helpers look up, `name[i]` for
      each index in turn. */
  function FieldNames(name: string, indices: seq<Int32>): (r: seq<string>)
    ensures |r| == |indices|
    ensures forall i :: 0 <= i < |r| ==> r[i] == name + "[" + IntToString(indices[i]) + "]"
  {
    seq(|indices|, i requires 0 <= i < |indices| => name + "[" + IntToString(indices[i]) + "]")
  }

  /** `intMapFields(form, mapName)`: the names of the fields of the map. */
  function IntMapFields(raw: seq<string>, mapName: string, backing: Option<seq<Int32>>): (r: Option<seq<string>>)
    requires ']' !in mapName
    ensures r.Some? <==> IntKeysFromFormData(raw, mapName).Some?
    ensures r.Some? ==> IntKeysFromFormData(r.value, mapName) == IntMapKeys(raw, mapName, backing)
    ensures r.Some? ==> r.value == FieldNames(mapName, IntKeysFromFormData(r.value, mapName).value)
  {
    match IntMapKeys(raw, mapName, backing)
    case None => None
    case Some(keys) =>
      FieldNamesRoundTrip(mapName, keys);
      Some(FieldNames(mapName, keys))
  }

  /** `arrayFields(form, arrayName)`: the names of the fields of the array. */
  method ArrayFields(raw: seq<string>, arrayName: string, backingLength: Option<Length>) returns (r: Option<seq<string>>)
    requires ']' !in arrayName
    ensures r.Some? <==> IntKeysFromFormData(raw, arrayName).Some?
    ensures r.Some? ==> IntKeysFromFormData(r.value, arrayName).Some?
    ensures r.Some? ==> r.value == FieldNames(arrayName, IntKeysFromFormData(r.value, arrayName).value)
    ensures r.Some? ==> IsIndexList(IntKeysFromFormData(r.value, arrayName).value,
                                    IntKeysFromFormData(raw, arrayName).value, backingLength)
  {
    var indices := ArrayIndices(raw, arrayName, backingLength);
    if indices.None? {
      return None;
    }
    FieldNamesRoundTrip(arrayName, indices.value);
    r := Some(FieldNames(arrayName, indices.value));
  }

  /** `listFields(form, listName)`: the names of the fields of the list. */
  method ListFields(raw: seq<string>, listName: string, backingSize: Option<Length>) returns (r: Option<seq<string>>)
    requires ']' !in listName
    ensures r.Some? <==> IntKeysFromFormData(raw, listName).Some?
    ensures r.Some? ==> IntKeysFromFormData(r.value, listName).Some?
    ensures r.Some? ==> r.value == FieldNames(listName, IntKeysFromFormData(r.value, listName).value)
    ensures r.Some? ==> IsIndexList(IntKeysFromFormData(r.value, listName).value,
                                    IntKeysFromFormData(raw, listName).value, backingSize)
  {
    var indices := ListIndices(raw, listName, backingSize);
    if indices.None? {
      return None;
    }
    FieldNamesRoundTrip(listName, indices.value);
    r := Some(FieldNames(listName, indices.value));
  }

  // ---------------------------------------------------------------------------
  // Properties
  // ---------------------------------------------------------------------------

  /** The index of the field name `name[i]` is the text of `i`. */
  lemma ExtractFieldName(name: string, i: Int32)
    requires ']' !in name
    ensures ExtractKey(name + "[" + IntToString(i) + "]", name + "[") == Some(IntToString(i))
  {
    var digits := IntToString(i);
    var ext := name + "[";
    var s := ext + digits + "]";
    assert ']' !in ext + digits by {
      forall j | 0 <= j < |ext + digits| ensures (ext + digits)[j] != ']' {
        if j >= |ext| {
          assert (ext + digits)[j] == digits[j - |ext|];
        } else {
          assert (ext + digits)[j] == ext[j];
        }
      }
    }
    IndexOfSeparator(ext + digits, ']', []);
    assert ext + digits + [']'] + [] == s;
    assert s[..|ext|] == ext;
    assert s[|ext|..|ext + digits|] == digits;
  }

  /** The text of each index, in order. */
  function IndexTexts(indices: seq<Int32>): (r: seq<string>)
    ensures |r| == |indices| && forall i :: 0 <= i < |r| ==> r[i] == IntToString(indices[i])
  {
    seq(|indices|, i requires 0 <= i < |indices| => IntToString(indices[i]))
  }

  /** The index texts of the field names `name[i]` are those of the indices. */
  lemma {:induction false} FieldNamesKeys(name: string, indices: seq<Int32>)
    requires ']' !in name
    ensures StringKeysFromFormData(FieldNames(name, indices), name) == IndexTexts(indices)
    decreases |indices|
  {
    if indices != [] {
      var init := indices[..|indices| - 1];
      var last := indices[|indices| - 1];
      assert init + [last] == indices;
      FieldNamesKeys(name, init);
      StringKeysStep(name, init, last);
      IndexTextsAppend(init, last);
    }
  }

  /** One more index adds its text at the end. */
  lemma StringKeysStep(name: string, init: seq<Int32>, last: Int32)
    requires ']' !in name
    ensures StringKeysFromFormData(FieldNames(name, init + [last]), name)
         == StringKeysFromFormData(FieldNames(name, init), name) + [IntToString(last)]
  {
    var lastName := name + "[" + IntToString(last) + "]";
    FieldNamesAppend(name, init, last);
    ExtractFieldName(name, last);
    StringKeysAppend(FieldNames(name, init), lastName, name, IntToString(last));
  }

  lemma FieldNamesAppend(name: string, init: seq<Int32>, last: Int32)
    ensures FieldNames(name, init + [last]) == FieldNames(name, init) + [name + "[" + IntToString(last) + "]"]
  {
  }

  lemma IndexTextsAppend(init: seq<Int32>, last: Int32)
    ensures IndexTexts(init + [last]) == IndexTexts(init) + [IntToString(last)]
  {
  }

  /** The keys of two runs of names are those of the first run followed by
      those of the second: the keys keep the order of the names. */
  lemma {:induction false} StringKeysConcat(a: seq<string>, b: seq<string>, key: string)
    requires ']' !in key
    ensures StringKeysFromFormData(a + b, key) == StringKeysFromFormData(a, key) + StringKeysFromFormData(b, key)
    decreases |b|
  {
    if b == [] {
      assert a + b == a;
    } else {
      var init := b[..|b| - 1];
      assert (a + b)[..|a + b| - 1] == a + init;
      StringKeysConcat(a, init, key);
    }
  }

  /** A single name gives its key, or nothing when it is not `key[...]`. */
  lemma StringKeysOfOne(s: string, key: string)
    requires ']' !in key
    ensures StringKeysFromFormData([s], key) == if ExtractKey(s, key + "[").Some? then [ExtractKey(s, key + "[").value] else []
  {
    assert [s][..0] == [];
  }

  lemma StringKeysAppend(raw: seq<string>, s: string, key: string, x: string)
    requires ']' !in key && ExtractKey(s, key + "[") == Some(x)
    ensures StringKeysFromFormData(raw + [s], key) == StringKeysFromFormData(raw, key) + [x]
  {
    assert (raw + [s])[..|raw|] == raw;
  }

  /** The raw field names `name[i]` built from a list of indices give back
      that list, in the same order. */
  lemma FieldNamesRoundTrip(name: string, indices: seq<Int32>)
    requires ']' !in name
    ensures IntKeysFromFormData(FieldNames(name, indices), name) == Some(indices)
  {
    FieldNamesKeys(name, indices);
    var texts := IndexTexts(indices);
    forall i | 0 <= i < |texts| ensures ParseInt(texts[i]) == Some(indices[i]) {
      IntToStringRoundTrip(indices[i]);
    }
    var r := ParseAll(texts);
    assert r.Some?;
    assert r.value == indices;
  }

  /** The data backing the form is consulted only when the form data holds no
      field of the map. */
  lemma FormDataTakesPriority(raw: seq<string>, mapName: string, b1: Option<seq<string>>, b2: Option<seq<string>>)
    requires ']' !in mapName
    requires exists s :: s in raw && StartsWith(s, mapName + "[") && ']' in s[|mapName| + 1..]
    ensures StringMapKeys(raw, mapName, b1) == StringMapKeys(raw, mapName, b2)
  {
    var s :| s in raw && StartsWith(s, mapName + "[") && ']' in s[|mapName| + 1..];
    assert ExtractKey(s, mapName + "[").Some?;
  }

  /** Of `k` and `-k` the one added first stays. */
  lemma FirstOfOppositeKeysStays(k: Int32)
    requires k != 0 && k != MinInt
    ensures TreeSetOf([k, -k], AbsOrder) == [k]
    ensures TreeSetOf([-k, k], AbsOrder) == [-k]
  {
    assert JavaAbs(k) == JavaAbs(-k);
    assert [k][..0] == [] && [-k][..0] == [];
    assert TreeSetOf([k], AbsOrder) == [k] && TreeSetOf([-k], AbsOrder) == [-k];
    assert [k, -k][..1] == [k];
    assert [-k, k][..1] == [-k];
  }
}
