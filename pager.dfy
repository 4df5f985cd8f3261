/**
 * `Pager`: the page number and page size of a paged table, the arithmetic of
 * the rows a page shows, and its binding to and from the query-string
 * parameters `key.nr` and `key.size`.
 */
module Pagers {
  import opened Wrappers
  import opened JavaLang
  import opened FormUrlEncoding

  /** The value a `Pager` holds: a page number counted from 0 and a page size. */
  datatype Page = Page(pageNr: Int32, pageSize: Int32) {

    /** `hasPrevious()`: going back leads to an earlier page. */
    predicate HasPrevious()
      ensures HasPrevious() <==> Previous().pageNr < pageNr
    {
      pageNr > 0
    }

    /** The number of rows on this page and the pages before it,
        `pageSize * (pageNr + 1)` in `int` arithmetic. */
    function RowsThrough(): Int32 {
      Mul(pageSize, Add(pageNr, 1))
    }

    /** `hasNext(count)`: some of the `count` rows lie beyond this page. */
    function HasNext(count: Int32): (r: bool)
      ensures r <==> GetEnd(count) < count
    {
      RowsThrough() < count
    }

    /** `next()` */
    function Next(): (r: Page)
      ensures r.pageSize == pageSize
      ensures pageNr < MaxInt ==> r.pageNr == pageNr + 1
    {
      Page(Add(pageNr, 1), pageSize)
    }

    /** `previous()`: one page back, but never before page 0. */
    function Previous(): (r: Page)
      ensures r.pageSize == pageSize && r.pageNr >= 0
      ensures pageNr > 0 ==> r.pageNr == pageNr - 1
      ensures pageNr <= 0 ==> r.pageNr == 0
    {
      Page(if pageNr > 0 then pageNr - 1 else 0, pageSize)
    }

    /** `getStart()`: the number, counted from 1, of the first row on this page. */
    function GetStart(): (r: Int32)
      ensures pageSize * pageNr < MaxInt && MinInt <= pageSize * pageNr ==> r == pageSize * pageNr + 1
    {
      Add(Mul(pageSize, pageNr), 1)
    }

    /** `getEnd(count)`: the number of the last of `count` rows on this page,
        `Math.min(count, pageSize * (pageNr + 1))`. */
    function GetEnd(count: Int32): (r: Int32)
      ensures r <= count && r <= RowsThrough()
      ensures r == count || r == RowsThrough()
    {
      if count <= RowsThrough() then count else RowsThrough()
    }

    /** `getFirst()` */
    function GetFirst(): (r: Page)
      ensures r.pageNr == 0 && r.pageSize == pageSize && !r.HasPrevious()
    {
      Page(0, pageSize)
    }

    /** `resize(size)`: the page of the new size that holds the first row of
        this page, `pageNr * pageSize / size`. Division by zero throws. */
    function Resize(size: Int32): (r: Page)
      requires size != 0
      ensures r.pageSize == size
    {
      Page(Div(Mul(pageNr, pageSize), size), size)
    }

    /** The parameters `unbind(key)` writes, in order. */
    function Parameters(key: string): seq<(string, string)> {
      [(key + ".nr", IntToString(pageNr)), (key + ".size", IntToString(pageSize))]
    }

    /** `unbind(key)`: `key.nr=<pageNr>&key.size=<pageSize>`. */
    function Unbind(key: string): (r: string)
      ensures r == FieldsText(Parameters(key))
    {
      UnbindIsFieldsText(this, key);
      key + ".nr=" + IntToString(pageNr) + "&" + key + ".size=" + IntToString(pageSize)
    }
  }

  /** The outcome of `bind`: whether it succeeded, and the fields afterwards,
      which a failed bind may already have changed. */
  datatype PageBound = PageBound(ok: bool, page: Page)

  /** What `bind(key, data)` does to a pager that holds `p`: it fails when
      `key.nr` or `key.size` is missing or does not have exactly one value,
      then parses and stores the page number, then the page size; a page size
      that is not an `int` fails after the page number has been stored. */
  function PagerBind(p: Page, key: string, data: map<string, seq<string>>): (b: PageBound)
    ensures b.ok <==> && SingleValue(data, key + ".nr").Some? && SingleValue(data, key + ".size").Some?
                      && ParseInt(SingleValue(data, key + ".nr").value).Some?
                      && ParseInt(SingleValue(data, key + ".size").value).Some?
    ensures b.ok ==> && Some(b.page.pageNr) == ParseInt(data[key + ".nr"][0])
                     && Some(b.page.pageSize) == ParseInt(data[key + ".size"][0])
    ensures !b.ok ==> b.page.pageSize == p.pageSize
    ensures b.page.pageNr != p.pageNr ==> Some(b.page.pageNr) == ParseInt(SingleValue(data, key + ".nr").GetOr(""))
  {
    var nrs := SingleValue(data, key + ".nr");
    var sizes := SingleValue(data, key + ".size");
    if nrs.None? || sizes.None? then PageBound(false, p)
    else
      match ParseInt(nrs.value)
      case None => PageBound(false, p)
      case Some(nr) =>
        match ParseInt(sizes.value)
        case None => PageBound(false, Page(nr, p.pageSize))
        case Some(size) => PageBound(true, Page(nr, size))
  }

  /** `Pager`: the framework creates one with `new Pager()` and calls `bind` on it. */
  class Pager {
    var pageNr: Int32
    var pageSize: Int32

    function Value(): Page
      reads this
    {
      Page(pageNr, pageSize)
    }

    /** `new Pager()`: both fields zero until `bind` fills them. */
    constructor Empty()
      ensures Value() == Page(0, 0)
    {
      pageNr, pageSize := 0, 0;
    }

    /** `new Pager(pageNr, pageSize)` */
    constructor (pageNr: Int32, pageSize: Int32)
      ensures Value() == Page(pageNr, pageSize)
    {
      this.pageNr, this.pageSize := pageNr, pageSize;
    }

    /** `bind(key, data)`: overwrites the fields in place, the page number
        possibly without the page size. */
    method Bind(key: string, data: map<string, seq<string>>) returns (ok: bool)
      modifies this
      ensures PageBound(ok, Value()) == PagerBind(old(Value()), key, data)
    {
      var nrs := SingleValue(data, key + ".nr");
      var sizes := SingleValue(data, key + ".size");
      if nrs.None? || sizes.None? {
        return false;
      }
      var nr := ParseInt(nrs.value);
      if nr.None? {
        return false;
      }
      pageNr := nr.value;
      var size := ParseInt(sizes.value);
      if size.None? {
        return false;
      }
      pageSize := size.value;
      return true;
    }
  }

  // ---------------------------------------------------------------------------
  // Properties
  // ---------------------------------------------------------------------------

  lemma UnbindIsFieldsText(p: Page, key: string)
    ensures key + ".nr=" + IntToString(p.pageNr) + "&" + key + ".size=" + IntToString(p.pageSize)
            == FieldsText(p.Parameters(key))
  {
    var nr, size := IntToString(p.pageNr), IntToString(p.pageSize);
    IntTextIsSafe(p.pageNr);
    IntTextIsSafe(p.pageSize);
    FieldsTextOfTwo(key + ".nr", nr, key + ".size", size);
    assert key + ".nr" + "=" == key + ".nr=";
    assert key + ".size" + "=" == key + ".size=";
  }

  lemma IntTextIsSafe(n: int)
    ensures IsSafeName(IntToString(n))
  {
    var s := IntToString(n);
    forall i | 0 <= i < |s| ensures IsUnreserved(s[i]) { assert IsDigit(s[i]) || s[i] == '-'; }
  }

  /** Without overflow, the resized page holds the first row of the old one:
      row `pageNr * pageSize` lies in page `r.pageNr` of the new size. */
  lemma ResizeKeepsFirstRow(p: Page, size: Int32)
    requires 0 <= p.pageNr && 0 <= p.pageSize && p.pageNr * p.pageSize <= MaxInt && size > 0
    ensures var r := p.Resize(size);
      r.pageNr * size <= p.pageNr * p.pageSize < (r.pageNr + 1) * size
  {
    ProductNonNegative(p.pageNr, p.pageSize);
    var rows: nat := p.pageNr * p.pageSize;
    var q := rows / size;
    assert Mul(p.pageNr, p.pageSize) == rows;
    assert p.Resize(size).pageNr == q;
    QuotientBounds(rows, size);
    assert (q + 1) * size == q * size + size;
  }

  lemma ProductNonNegative(a: nat, b: nat)
    ensures a * b >= 0
  {
  }

  lemma QuotientBounds(a: nat, b: nat)
    requires b > 0
    ensures (a / b) * b <= a < (a / b) * b + b
  {
  }

  /** Going forward and then back returns to the same page. */
  lemma PreviousUndoesNext(p: Page)
    requires 0 <= p.pageNr < MaxInt
    ensures p.Next().Previous() == p
  {
  }

  /** Going back from a page that has a previous one and then forward returns
      to the same page. */
  lemma NextUndoesPrevious(p: Page)
    requires p.HasPrevious()
    ensures p.Previous().Next() == p
  {
  }

  /** Without overflow the rows `getStart()` to `getEnd(count)` are those of
      this page: at most `pageSize` of them, and none when the page lies beyond
      the rows. */
  lemma StartEndOfPage(p: Page, count: Int32)
    requires 0 <= p.pageNr < MaxInt && 0 <= p.pageSize
    requires p.pageSize * (p.pageNr + 1) <= MaxInt
    ensures p.GetEnd(count) - p.GetStart() + 1 <= p.pageSize
    ensures count >= p.pageSize * p.pageNr ==> p.GetStart() <= p.GetEnd(count) + 1
    ensures p.GetEnd(count) == if count < p.pageSize * (p.pageNr + 1) then count else p.pageSize * (p.pageNr + 1)
  {
    var before := p.pageSize * p.pageNr;
    var through := p.pageSize * (p.pageNr + 1);
    assert through == before + p.pageSize;
    assert 0 <= before;
    assert before < MaxInt by {
      if p.pageSize > 0 {
        assert before <= through - 1;
      }
    }
    assert p.RowsThrough() == through;
    assert p.GetStart() == before + 1;
  }

  /** A failed check of `key.nr` or `key.size` leaves the pager untouched. */
  lemma BindFailsOnMissingOrRepeated(p: Page, key: string, data: map<string, seq<string>>)
    requires key + ".nr" !in data || key + ".size" !in data
             || |data[key + ".nr"]| != 1 || |data[key + ".size"]| != 1
    ensures PagerBind(p, key, data) == PageBound(false, p)
  {
  }

  /** A page number that parses followed by a page size that does not: the
      bind fails, but the page number has been overwritten. */
  lemma BindStoresPageNrBeforeFailing(p: Page, key: string, data: map<string, seq<string>>, nr: Int32)
    requires key + ".nr" in data && |data[key + ".nr"]| == 1 && ParseInt(data[key + ".nr"][0]) == Some(nr)
    requires key + ".size" in data && |data[key + ".size"]| == 1 && ParseInt(data[key + ".size"][0]).None?
    ensures PagerBind(p, key, data) == PageBound(false, Page(nr, p.pageSize))
  {
  }

  /** Parameters holding the text `unbind` writes bind to the same page. */
  lemma BindParameters(p: Page, q: Page, key: string, data: map<string, seq<string>>)
    requires key + ".nr" in data && data[key + ".nr"] == [IntToString(p.pageNr)]
    requires key + ".size" in data && data[key + ".size"] == [IntToString(p.pageSize)]
    ensures PagerBind(q, key, data) == PageBound(true, p)
  {
    IntToStringRoundTrip(p.pageNr);
    IntToStringRoundTrip(p.pageSize);
  }

  /** The names `unbind` writes need no encoding when the key needs none, and
      the values are ASCII. */
  lemma ParametersWellFormed(p: Page, key: string)
    requires IsSafeName(key)
    ensures WellFormedFields(p.Parameters(key))
  {
    var ps := p.Parameters(key);
    assert |ps[0].0| != |ps[1].0|;
  }

  /** Round trip: binding the query string that `unbind(key)` writes restores
      the page number and page size, whatever the pager held before. */
  lemma PagerRoundTrip(p: Page, q: Page, key: string)
    requires IsSafeName(key)
    ensures PagerBind(q, key, ParseQuery(p.Unbind(key))) == PageBound(true, p)
  {
    var ps := p.Parameters(key);
    ParametersWellFormed(p, key);
    ParseFieldsText(ps);
    assert ParseQuery(FieldsText(ps))[ps[0].0] == [ps[0].1];
    assert ParseQuery(FieldsText(ps))[ps[1].0] == [ps[1].1];
    BindParameters(p, q, key, ParseQuery(p.Unbind(key)));
  }
}
