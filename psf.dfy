/**
 * `PSF`: the pager, sorter and filter of a table bound together under one
 * query-string key `s`, as the parameters `s.p.nr`, `s.p.size`, `s.s` and
 * `s.f.k`, with the navigation methods that derive the PSF of a neighbouring
 * view.
 */
module Psfs {
  import opened Wrappers
  import opened JavaLang
  import opened FormUrlEncoding
  import opened Pagers
  import opened Sorters
  import opened StringMaps

  /** The text `unbind(s)` returns when the filter's entries are visited in
      `order`: the pager's and the sorter's parameters, then the filter's
      unless it wrote nothing but blanks. */
  function PsfText(p: Page, t: Sort, m: map<string, string>, s: string, order: seq<string>): string
    requires CanUnbind(m) && IsEnumeration(order, m.Keys)
  {
    var part1 := p.Unbind(s + ".p") + "&" + t.Unbind(s + ".s");
    var part2 := UnbindText(m, s + ".f", order);
    if TrimIsEmpty(part2) then part1 else part1 + "&" + part2
  }

  /** `PSF`: it holds references to its pager, sorter and filter, which the
      navigation methods share between the old and the new PSF. */
  class PSF {
    const pager: Pager
    const sorter: Sorter
    const filter: StringMap

    /** `new PSF(pager, sorter, filter)` */
    constructor (pager: Pager, sorter: Sorter, filter: StringMap)
      ensures this.pager == pager && this.sorter == sorter && this.filter == filter
    {
      this.pager, this.sorter, this.filter := pager, sorter, filter;
    }

    /** `new PSF()`: what the framework binds into. */
    constructor Empty()
      ensures fresh(pager) && fresh(sorter) && fresh(filter)
      ensures pager.Value() == Page(0, 0) && sorter.Value() == Sort("", false) && filter.entries == map[]
    {
      pager := new Pager.Empty();
      sorter := new Sorter.Empty();
      filter := new StringMap();
    }

    /** `new PSF(sortColumn, asc, pageSize)`: the first page, no filter. */
    constructor Initial(sortColumn: string, ascending: bool, pageSize: Int32)
      ensures fresh(pager) && fresh(sorter) && fresh(filter)
      ensures pager.Value() == Page(0, pageSize) && sorter.Value() == Sort(sortColumn, ascending)
      ensures filter.entries == map[]
    {
      pager := new Pager(0, pageSize);
      sorter := new Sorter(sortColumn, ascending);
      filter := new StringMap();
    }

    /** `bind(s, data)`: binds the pager under `s.p`, then the sorter under
        `s.s`, then the filter under `s.f`, stopping at the first that fails;
        what the earlier ones bound stays. */
    method Bind(s: string, data: map<string, seq<string>>) returns (ok: bool)
      modifies pager, sorter, filter
      ensures var pb := PagerBind(old(pager.Value()), s + ".p", data);
              var sb := SortBind(old(sorter.Value()), s + ".s", data);
        && pager.Value() == pb.page
        && sorter.Value() == (if pb.ok then sb.sort else old(sorter.Value()))
        && (!(pb.ok && sb.ok) ==> filter.entries == old(filter.entries))
        && (ok <==> pb.ok && sb.ok && !HasMultiValued(data, s + ".f" + ".", data.Keys))
      ensures ok ==> filter.entries == old(filter.entries) + Collected(data, s + ".f" + ".", data.Keys)
      ensures !ok ==> exists names :: names <= data.Keys &&
                        filter.entries == old(filter.entries) + Collected(data, s + ".f" + ".", names)
    {
      var pagerOk := pager.Bind(s + ".p", data);
      if !pagerOk {
        assert filter.entries == old(filter.entries) + Collected(data, s + ".f" + ".", {});
        return false;
      }
      var sorterOk := sorter.Bind(s + ".s", data);
      if !sorterOk {
        assert filter.entries == old(filter.entries) + Collected(data, s + ".f" + ".", {});
        return false;
      }
      ok := filter.Bind(s + ".f", data);
    }

    /** `unbind(s)`; the filter's entries are visited in `order`. */
    method Unbind(s: string) returns (r: string, ghost order: seq<string>)
      requires CanUnbind(filter.entries)
      ensures IsEnumeration(order, filter.entries.Keys)
      ensures r == PsfText(pager.Value(), sorter.Value(), filter.entries, s, order)
    {
      var part1 := pager.Value().Unbind(s + ".p") + "&" + sorter.Value().Unbind(s + ".s");
      var part2;
      part2, order := filter.Unbind(s + ".f");
      if TrimIsEmpty(part2) {
        r := part1;
      } else {
        r := part1 + "&" + part2;
      }
    }

    /** `previous()`: a new pager one page back; sorter and filter shared. */
    method Previous() returns (r: PSF)
      ensures fresh(r) && fresh(r.pager)
      ensures r.pager.Value() == pager.Value().Previous() && r.sorter == sorter && r.filter == filter
    {
      var p := pager.Value().Previous();
      var newPager := new Pager(p.pageNr, p.pageSize);
      r := new PSF(newPager, sorter, filter);
    }

    /** `next()`: a new pager one page on; sorter and filter shared. */
    method Next() returns (r: PSF)
      ensures fresh(r) && fresh(r.pager)
      ensures r.pager.Value() == pager.Value().Next() && r.sorter == sorter && r.filter == filter
    {
      var p := pager.Value().Next();
      var newPager := new Pager(p.pageNr, p.pageSize);
      r := new PSF(newPager, sorter, filter);
    }

    /** `resort(field)`: a new sorter after a click on `field`; pager and
        filter shared. */
    method Resort(field: string) returns (r: PSF)
      ensures fresh(r) && fresh(r.sorter)
      ensures r.sorter.Value() == sorter.Value().ForColumn(field) && r.pager == pager && r.filter == filter
    {
      var t := sorter.Value().ForColumn(field);
      var newSorter := new Sorter(t.sortColumn, t.ascending);
      r := new PSF(pager, newSorter, filter);
    }

    /** `resize(size)`: a new pager of the new size; a size of 0 throws. */
    method Resize(size: Int32) returns (r: PSF)
      requires size != 0
      ensures fresh(r) && fresh(r.pager)
      ensures r.pager.Value() == pager.Value().Resize(size) && r.sorter == sorter && r.filter == filter
    {
      var p := pager.Value().Resize(size);
      var newPager := new Pager(p.pageNr, p.pageSize);
      r := new PSF(newPager, sorter, filter);
    }

    /** `refilter(newFilter)`: back to the first page, with the new filter. */
    method Refilter(newFilter: StringMap) returns (r: PSF)
      ensures fresh(r) && fresh(r.pager)
      ensures r.pager.Value() == pager.Value().GetFirst() && r.sorter == sorter && r.filter == newFilter
    {
      var p := pager.Value().GetFirst();
      var newPager := new Pager(p.pageNr, p.pageSize);
      r := new PSF(newPager, sorter, newFilter);
    }

    /** `getFilterValue(key)`: the filter's value of `key`, absent when there
        is none or it is blank. */
    function GetFilterValue(key: string): (r: Option<string>)
      reads filter
      ensures r.Some? <==> key in filter.entries && !IsBlank(filter.entries[key])
      ensures r.Some? ==> r.value == filter.entries[key]
    {
      if key !in filter.entries || IsBlank(filter.entries[key]) then None
      else Some(filter.entries[key])
    }

    /** `getFilterValueAsInt(key)`: the filter value, trimmed and parsed as an
        `int`; absent when there is no value or it is not an integer. */
    function GetFilterValueAsInt(key: string): (r: Option<Int32>)
      reads filter
      ensures r.Some? <==> GetFilterValue(key).Some? && ParseInt(Trim(GetFilterValue(key).value)).Some?
      ensures r.Some? ==> r == ParseInt(Trim(filter.entries[key]))
    {
      match GetFilterValue(key)
      case None => None
      case Some(value) => ParseInt(Trim(value))
    }
  }

  // ---------------------------------------------------------------------------
  // Properties
  // ---------------------------------------------------------------------------

  /** A filter value written by `Integer.toString` reads back as that number. */
  lemma FilterValueAsIntOfNumber(psf: PSF, key: string, n: Int32)
    requires key in psf.filter.entries && psf.filter.entries[key] == IntToString(n)
    ensures psf.GetFilterValueAsInt(key) == Some(n)
  {
    var v := IntToString(n);
    assert !IsWhitespace(v[0]);
    assert Trim(v) == v;
    IntToStringRoundTrip(n);
  }

  /** `getFilterValueAsInt` trims the value before parsing it. */
  lemma FilterValueAsIntOfPaddedNumber(psf: PSF, key: string, n: Int32)
    requires key in psf.filter.entries && psf.filter.entries[key] == " " + IntToString(n) + " "
    ensures psf.GetFilterValueAsInt(key) == Some(n)
  {
    var v := IntToString(n);
    assert !IsWhitespace((" " + v + " ")[1]);
    TrimPadded(v);
    IntToStringRoundTrip(n);
  }

  lemma TrimPadded(x: string)
    requires x != [] && !IsTrimmed(x[0]) && !IsTrimmed(x[|x| - 1])
    ensures Trim(" " + x + " ") == x
  {
    assert (" " + x + " ")[1..] == x + " ";
    assert TrimStart(x + " ") == x + " ";
    assert (x + " ")[..|x|] == x;
  }

  lemma SafeConcat(a: string, b: string)
    requires IsSafeName(a) && IsSafeName(b)
    ensures IsSafeName(a + b)
  {
    forall i | 0 <= i < |a + b| ensures IsUnreserved((a + b)[i]) {
      if i >= |a| { assert (a + b)[i] == b[i - |a|]; }
    }
  }

  /** No name in `a` is a name in `b`. */
  predicate NamesApart(a: seq<(string, string)>, b: seq<(string, string)>) {
    forall i, j :: 0 <= i < |a| && 0 <= j < |b| ==> a[i].0 != b[j].0
  }

  lemma WellFormedConcat(a: seq<(string, string)>, b: seq<(string, string)>)
    requires WellFormedFields(a) && WellFormedFields(b) && NamesApart(a, b)
    ensures WellFormedFields(a + b)
  {
    var ab := a + b;
    forall i, j | 0 <= i < j < |ab| ensures ab[i].0 != ab[j].0 {
      if j < |a| {
        assert ab[i] == a[i] && ab[j] == a[j];
      } else if i >= |a| {
        assert ab[i] == b[i - |a|] && ab[j] == b[j - |a|];
      } else {
        assert ab[i] == a[i] && ab[j] == b[j - |a|];
      }
    }
  }

  /** The character after `s.` tells the pager's, the sorter's and the
      filter's parameters apart. */
  predicate TaggedAs(name: string, s: string, c: char) {
    |name| > |s| + 1 && name[|s| + 1] == c
  }

  lemma PagerSorterNamesTagged(s: string)
    ensures TaggedAs(s + ".p" + ".nr", s, 'p') && TaggedAs(s + ".p" + ".size", s, 'p')
    ensures TaggedAs(s + ".s", s, 's')
  {
    assert (s + ".p" + ".nr")[|s| + 1] == 'p';
    assert (s + ".p" + ".size")[|s| + 1] == 'p';
  }

  lemma FilterNameTagged(s: string, k: string)
    ensures TaggedAs(s + ".f" + "." + k, s, 'f') && (s + ".f" + "." + k)[|s|] == '.'
  {
    assert (s + ".f" + "." + k)[|s|] == '.';
    assert (s + ".f" + "." + k)[|s| + 1] == 'f';
  }

  /** The parameters the pager and the sorter write, followed by those the filter writes. */
  function PsfFields(p: Page, t: Sort, m: map<string, string>, s: string, order: seq<string>): seq<(string, string)>
  {
    p.Parameters(s + ".p") + t.Parameters(s + ".s") + UnbindFields(m, s + ".f", order)
  }

  /** A filter with an entry that is not blank writes a text that is not
      blank either: it starts with `s.f.`. */
  lemma FilterTextNotBlank(m: map<string, string>, s: string, order: seq<string>)
    requires CanUnbind(m) && IsEnumeration(order, m.Keys) && m != map[]
    ensures |UnbindFields(m, s + ".f", order)| > 0
    ensures !TrimIsEmpty(UnbindText(m, s + ".f", order))
  {
    var k :| k in m && !TrimIsEmpty(m[k]);
    assert k in Kept(m, order);
    var fs := UnbindFields(m, s + ".f", order);
    var segs := FieldSegments(fs);
    JoinStartsWith(segs, '&');
    FilterNameTagged(s, Kept(m, order)[0]);
    assert segs[0][|s|] == '.';
    assert UnbindText(m, s + ".f", order)[|s|] == '.';
  }

  /** The text `unbind` writes is that of the parameters of all three parts. */
  lemma PsfTextIsFieldsText(p: Page, t: Sort, m: map<string, string>, s: string, order: seq<string>)
    requires CanUnbind(m) && IsEnumeration(order, m.Keys)
    ensures PsfText(p, t, m, s, order) == FieldsText(PsfFields(p, t, m, s, order))
  {
    var pp, tp := p.Parameters(s + ".p"), t.Parameters(s + ".s");
    var fs := UnbindFields(m, s + ".f", order);
    FieldsTextAppend(pp, tp);
    if m == map[] {
      assert Kept(m, order) == [];
      assert PsfFields(p, t, m, s, order) == pp + tp;
    } else {
      FilterTextNotBlank(m, s, order);
      FieldsTextAppend(pp + tp, fs);
    }
  }

  /** The names of the three parts need no encoding and differ from each other. */
  lemma PsfFieldsWellFormed(p: Page, t: Sort, m: map<string, string>, s: string, order: seq<string>)
    requires IsSafeName(s) && IsAscii(t.sortColumn) && IsEnumeration(order, m.Keys)
    requires forall k :: k in m ==> IsSafeName(k) && IsAscii(m[k])
    ensures WellFormedFields(PsfFields(p, t, m, s, order))
  {
    var pt := p.Parameters(s + ".p") + t.Parameters(s + ".s");
    var fs := UnbindFields(m, s + ".f", order);
    PagerSorterWellFormed(p, t, s);
    SafeConcat(s, ".f");
    UnbindFieldsWellFormed(m, s + ".f", order);
    FilterNamesApart(p, t, m, s, order);
    WellFormedConcat(pt, fs);
  }

  /** The pager's and the sorter's names need no encoding and differ. */
  lemma PagerSorterWellFormed(p: Page, t: Sort, s: string)
    requires IsSafeName(s) && IsAscii(t.sortColumn)
    ensures WellFormedFields(p.Parameters(s + ".p") + t.Parameters(s + ".s"))
  {
    var pp, tp := p.Parameters(s + ".p"), t.Parameters(s + ".s");
    SafeConcat(s, ".p");
    SafeConcat(s, ".s");
    Pagers.ParametersWellFormed(p, s + ".p");
    Sorters.ParametersWellFormed(t, s + ".s");
    PagerSorterNamesTagged(s);
    assert pp[0].0 == s + ".p" + ".nr" && pp[1].0 == s + ".p" + ".size" && tp[0].0 == s + ".s";
    WellFormedConcat(pp, tp);
  }

  /** No name the filter writes is one the pager or the sorter writes. */
  lemma FilterNamesApart(p: Page, t: Sort, m: map<string, string>, s: string, order: seq<string>)
    ensures NamesApart(p.Parameters(s + ".p") + t.Parameters(s + ".s"), UnbindFields(m, s + ".f", order))
  {
    var pt := p.Parameters(s + ".p") + t.Parameters(s + ".s");
    var fs := UnbindFields(m, s + ".f", order);
    var ks := Kept(m, order);
    PagerSorterNamesTagged(s);
    forall i, j | 0 <= i < |pt| && 0 <= j < |fs| ensures pt[i].0 != fs[j].0 {
      FilterNameTagged(s, ks[j]);
      assert TaggedAs(fs[j].0, s, 'f');
      assert TaggedAs(pt[i].0, s, 'p') || TaggedAs(pt[i].0, s, 's');
    }
  }

  /** The only parameters under `s.f.` are those the filter wrote. */
  lemma OnlyFilterUnderPrefix(p: Page, t: Sort, m: map<string, string>, s: string, order: seq<string>,
                              data: map<string, seq<string>>)
    requires data.Keys == Names(PsfFields(p, t, m, s, order))
    ensures forall n :: n in data && StartsWith(n, s + ".f" + ".") ==> n[|s + ".f"| + 1..] in Kept(m, order)
  {
    var all := PsfFields(p, t, m, s, order);
    forall n | n in data && StartsWith(n, s + ".f" + ".") ensures n[|s + ".f"| + 1..] in Kept(m, order) {
      assert n in Names(all);
      var i :| 0 <= i < |all| && all[i].0 == n;
      FilterNameAt(p, t, m, s, order, i);
    }
  }

  /** A name of the three parts under `s.f.` is one the filter wrote. */
  lemma FilterNameAt(p: Page, t: Sort, m: map<string, string>, s: string, order: seq<string>, i: int)
    requires 0 <= i < |PsfFields(p, t, m, s, order)|
    requires StartsWith(PsfFields(p, t, m, s, order)[i].0, s + ".f" + ".")
    ensures PsfFields(p, t, m, s, order)[i].0[|s + ".f"| + 1..] in Kept(m, order)
  {
    var all := PsfFields(p, t, m, s, order);
    var fs := UnbindFields(m, s + ".f", order);
    var ks := Kept(m, order);
    FilterPrefixTagged(s, all[i].0);
    PagerSorterNotFilter(p, t, m, s, order);
    assert i >= 3;
    assert all[i] == fs[i - 3];
    DottedName(s + ".f", ks[i - 3]);
  }

  lemma FilterPrefixTagged(s: string, n: string)
    requires StartsWith(n, s + ".f" + ".")
    ensures TaggedAs(n, s, 'f')
  {
    assert n[|s| + 1] == n[..|s| + 3][|s| + 1];
  }

  lemma PagerSorterNotFilter(p: Page, t: Sort, m: map<string, string>, s: string, order: seq<string>)
    ensures |PsfFields(p, t, m, s, order)| >= 3
    ensures forall j :: 0 <= j < 3 ==> !TaggedAs(PsfFields(p, t, m, s, order)[j].0, s, 'f')
  {
    var all := PsfFields(p, t, m, s, order);
    PagerSorterNamesTagged(s);
    assert all[0].0 == s + ".p" + ".nr" && all[1].0 == s + ".p" + ".size" && all[2].0 == s + ".s";
  }

  /** Parameters that hold exactly the three parts' fields bind each part back. */
  lemma PsfFieldsBind(p: Page, t: Sort, m: map<string, string>, s: string, order: seq<string>,
                      q: Page, u: Sort, data: map<string, seq<string>>)
    requires IsEnumeration(order, m.Keys)
    requires data.Keys == Names(PsfFields(p, t, m, s, order))
    requires Present(PsfFields(p, t, m, s, order), data)
    ensures PagerBind(q, s + ".p", data) == PageBound(true, p)
    ensures SortBind(u, s + ".s", data) == SortBound(true, t)
    ensures Collected(data, s + ".f" + ".", data.Keys) == NonBlank(m)
    ensures !HasMultiValued(data, s + ".f" + ".", data.Keys)
  {
    var pp, tp := p.Parameters(s + ".p"), t.Parameters(s + ".s");
    var fs := UnbindFields(m, s + ".f", order);
    var all := PsfFields(p, t, m, s, order);
    assert all[0] == pp[0] && all[1] == pp[1] && all[2] == tp[0];
    assert data[all[0].0] == [all[0].1];
    assert data[all[1].0] == [all[1].1];
    assert data[all[2].0] == [all[2].1];
    Pagers.BindParameters(p, q, s + ".p", data);
    Sorters.BindParameters(t, u, s + ".s", data);
    forall i | 0 <= i < |fs| ensures fs[i].0 in data && data[fs[i].0] == [fs[i].1] {
      assert all[3 + i] == fs[i];
    }
    OnlyFilterUnderPrefix(p, t, m, s, order, data);
    UnbindFieldsBind(m, s + ".f", order, data);
  }

  /** Round trip: binding the query string that `unbind(s)` writes restores
      the page, the sort and the filter entries that are not blank after
      trimming, whatever the PSF held before, when the key and the filter keys
      need no encoding and the column name and the filter values are ASCII. */
  lemma PsfRoundTrip(p: Page, t: Sort, m: map<string, string>, s: string, order: seq<string>, q: Page, u: Sort)
    requires IsSafeName(s) && IsAscii(t.sortColumn) && CanUnbind(m) && IsEnumeration(order, m.Keys)
    requires forall k :: k in m ==> IsSafeName(k) && IsAscii(m[k])
    ensures var data := ParseQuery(PsfText(p, t, m, s, order));
      && PagerBind(q, s + ".p", data) == PageBound(true, p)
      && SortBind(u, s + ".s", data) == SortBound(true, t)
      && Collected(data, s + ".f" + ".", data.Keys) == NonBlank(m)
      && !HasMultiValued(data, s + ".f" + ".", data.Keys)
  {
    var all := PsfFields(p, t, m, s, order);
    assert |all| > 0;
    PsfTextIsFieldsText(p, t, m, s, order);
    PsfFieldsWellFormed(p, t, m, s, order);
    ParseFieldsText(all);
    PsfFieldsBind(p, t, m, s, order, q, u, ParseQuery(FieldsText(all)));
  }
}
