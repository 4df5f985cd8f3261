/**
 * `Sorter`: the column a table is sorted on and the direction, the CSS
 * classes of the column headers, and its binding to and from one
 * query-string parameter `key=+column` or `key=-column`.
 */
module Sorters {
  import opened Wrappers
  import opened JavaLang
  import opened FormUrlEncoding

  /** The value a `Sorter` holds. */
  datatype Sort = Sort(sortColumn: string, ascending: bool) {

    /** `getCellClass(field)`: "sortable" on the sort column, nothing elsewhere. */
    function GetCellClass(field: string): (r: string)
      ensures r == "sortable" <==> field == sortColumn
      ensures r != "sortable" ==> r == ""
    {
      if sortColumn == field then "sortable" else ""
    }

    /** `getColumnClass(field)`: the sort column shows its direction, the other
        columns show that they can be sorted on. */
    function GetColumnClass(field: string): (r: string)
      ensures r == "sortable" <==> field != sortColumn
      ensures r == "sorted asc" <==> field == sortColumn && ascending
      ensures r == "sorted desc" <==> field == sortColumn && !ascending
    {
      if sortColumn == field then (if ascending then "sorted asc" else "sorted desc") else "sortable"
    }

    /** `forColumn(field)`: the sorter after a click on the header of `field`,
        which reverses the direction on the sort column and sorts another
        column ascending. */
    function ForColumn(field: string): (r: Sort)
      ensures r.sortColumn == field
      ensures r.ascending <==> field != sortColumn || !ascending
    {
      if field == sortColumn then Sort(sortColumn, !ascending) else Sort(field, true)
    }

    /** The direction as it appears in the parameter. */
    function Sign(): (c: char)
      ensures c == '+' <==> ascending
      ensures c == '+' || c == '-'
    {
      if ascending then '+' else '-'
    }

    /** The one parameter `unbind(key)` writes. */
    function Parameters(key: string): seq<(string, string)> {
      [(key, [Sign()] + sortColumn)]
    }

    /** `unbind(key)`: `key=` followed by the encoded sign and column. */
    function Unbind(key: string): (r: string)
      ensures r == FieldsText(Parameters(key))
    {
      assert FieldSegments(Parameters(key)) == [key + "=" + Encode([Sign()] + sortColumn)];
      key + "=" + Encode([Sign()] + sortColumn)
    }
  }

  /** The outcome of `bind`: whether it succeeded, and the fields afterwards. */
  datatype SortBound = SortBound(ok: bool, sort: Sort)

  /** What `bind(key, data)` does to a sorter that holds `s`: the one value of
      `key` must start with '+' (ascending) or '-' (descending) and the rest of
      it names the column; otherwise the bind fails and the fields stay. */
  function SortBind(s: Sort, key: string, data: map<string, seq<string>>): (b: SortBound)
    ensures !b.ok ==> b.sort == s
    ensures b.ok <==> SingleValue(data, key).Some? && StartsWithSign(SingleValue(data, key).value)
    ensures b.ok ==> data[key] == [[b.sort.Sign()] + b.sort.sortColumn]
  {
    match SingleValue(data, key)
    case None => SortBound(false, s)
    case Some(v) =>
      assert v != [] ==> v == [v[0]] + v[1..];
      if StartsWith(v, "+") then SortBound(true, Sort(v[1..], true))
      else if StartsWith(v, "-") then SortBound(true, Sort(v[1..], false))
      else SortBound(false, s)
  }

  /** `v.startsWith("+") || v.startsWith("-")`; never true of "". */
  predicate StartsWithSign(v: string) {
    v != [] && (v[0] == '+' || v[0] == '-')
  }

  /** `Sorter`: the framework creates one with `new Sorter()` and calls `bind` on it. */
  class Sorter {
    var sortColumn: string
    var ascending: bool

    function Value(): Sort
      reads this
    {
      Sort(sortColumn, ascending)
    }

    /** `new Sorter()`: no column yet (Java leaves it null) and descending. */
    constructor Empty()
      ensures Value() == Sort("", false)
    {
      sortColumn, ascending := "", false;
    }

    /** `new Sorter(sortColumn, ascending)` */
    constructor (sortColumn: string, ascending: bool)
      ensures Value() == Sort(sortColumn, ascending)
    {
      this.sortColumn, this.ascending := sortColumn, ascending;
    }

    /** `bind(key, data)`: sets the direction and then the column in place,
        or fails before changing either. */
    method Bind(key: string, data: map<string, seq<string>>) returns (ok: bool)
      modifies this
      ensures SortBound(ok, Value()) == SortBind(old(Value()), key, data)
    {
      var values := SingleValue(data, key);
      if values.None? {
        return false;
      }
      var v := values.value;
      if StartsWith(v, "+") {
        ascending := true;
      } else if StartsWith(v, "-") {
        ascending := false;
      } else {
        return false;
      }
      sortColumn := v[1..];
      return true;
    }
  }

  // ---------------------------------------------------------------------------
  // Properties
  // ---------------------------------------------------------------------------

  /** Two clicks on the sort column restore the direction. */
  lemma ForColumnTwice(s: Sort)
    ensures s.ForColumn(s.sortColumn).ForColumn(s.sortColumn) == s
  {
  }

  /** After a click on a header, that column is the sorted one and every other
      column is sortable. */
  lemma ForColumnClasses(s: Sort, field: string, other: string)
    requires other != field
    ensures s.ForColumn(field).GetColumnClass(field) != "sortable"
    ensures s.ForColumn(field).GetCellClass(field) == "sortable"
    ensures s.ForColumn(field).GetColumnClass(other) == "sortable"
  {
  }

  /** A parameter without a sign, the empty one included, fails and changes
      nothing. */
  lemma BindRejectsMissingSign(s: Sort, key: string, data: map<string, seq<string>>)
    requires key in data && |data[key]| == 1
    requires data[key][0] == [] || data[key][0][0] !in "+-"
    ensures SortBind(s, key, data) == SortBound(false, s)
  {
  }

  /** A parameter holding the text `unbind` writes binds to the same sorter. */
  lemma BindParameters(s: Sort, t: Sort, key: string, data: map<string, seq<string>>)
    requires key in data && data[key] == [[s.Sign()] + s.sortColumn]
    ensures SortBind(t, key, data) == SortBound(true, s)
  {
    var v := [s.Sign()] + s.sortColumn;
    assert v[..1] == [s.Sign()] && v[1..] == s.sortColumn;
  }

  /** The parameter `unbind` writes needs no encoding in its name when the key
      needs none, and its value is ASCII when the column name is. */
  lemma ParametersWellFormed(s: Sort, key: string)
    requires IsSafeName(key) && IsAscii(s.sortColumn)
    ensures WellFormedFields(s.Parameters(key))
  {
    var v := s.Parameters(key)[0].1;
    forall i | 0 <= i < |v| ensures (v[i] as int) < 0x80 {
      if i > 0 { assert v[i] == s.sortColumn[i - 1]; }
    }
  }

  /** Round trip: binding the query string that `unbind(key)` writes restores
      the column and the direction, for an ASCII column name. */
  lemma SortRoundTrip(s: Sort, t: Sort, key: string)
    requires IsSafeName(key) && IsAscii(s.sortColumn)
    ensures SortBind(t, key, ParseQuery(s.Unbind(key))) == SortBound(true, s)
  {
    var ps := s.Parameters(key);
    ParametersWellFormed(s, key);
    ParseFieldsText(ps);
    assert ParseQuery(FieldsText(ps))[ps[0].0] == [ps[0].1];
    BindParameters(s, t, key, ParseQuery(s.Unbind(key)));
  }
}
