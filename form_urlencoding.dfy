/**
 * The application/x-www-form-urlencoded format of section 5 of the WHATWG URL
 * Standard: `URLEncoder.encode` as the binders call it (with UTF-8), and a
 * reference parser of query strings (section 5.1) into the
 * `Map<String, String[]>` that the framework hands to a binder. The parser is
 * the framework's, not part of this library; it is here so that the round
 * trips of the binders can be stated.
 */
module FormUrlEncoding {
  import opened Wrappers
  import opened JavaLang

  /** The characters `URLEncoder.encode` leaves as they are. */
  predicate IsUnreserved(c: char) {
    ('a' <= c <= 'z') || ('A' <= c <= 'Z') || ('0' <= c <= '9') || c == '.' || c == '-' || c == '*' || c == '_'
  }

  /** A name that needs no encoding: the binders write parameter names unencoded. */
  predicate IsSafeName(s: string) {
    forall i :: 0 <= i < |s| ==> IsUnreserved(s[i])
  }

  predicate IsAscii(s: string) {
    forall i :: 0 <= i < |s| ==> (s[i] as int) < 0x80
  }

  /** What `URLEncoder.encode` may produce. */
  predicate IsEncodedText(s: string) {
    forall i :: 0 <= i < |s| ==> IsUnreserved(s[i]) || s[i] == '+' || s[i] == '%'
  }

  /** Upper-case hexadecimal digit, as `URLEncoder` writes them. */
  function HexDigit(d: nat): (c: char)
    requires d < 16
    ensures IsUnreserved(c)
  {
    if d < 10 then DigitChar(d) else (('A' as int) + d - 10) as char
  }

  /** The value of a hexadecimal digit of either case, or -1. */
  function HexValue(c: char): (v: int)
    ensures -1 <= v < 16
    ensures v >= 0 ==> HexDigit(v) == c || ('a' <= c <= 'f')
  {
    if '0' <= c <= '9' then (c as int) - ('0' as int)
    else if 'A' <= c <= 'F' then (c as int) - ('A' as int) + 10
    else if 'a' <= c <= 'f' then (c as int) - ('a' as int) + 10
    else -1
  }

  /** The UTF-8 encoding of one Unicode scalar value. */
  function Utf8(c: char): (bytes: seq<nat>)
    ensures 1 <= |bytes| <= 4
    ensures forall i :: 0 <= i < |bytes| ==> bytes[i] < 0x100
    ensures (c as int) < 0x80 ==> bytes == [c as int]
  {
    var v := c as int;
    if v < 0x80 then [v]
    else if v < 0x800 then [0xC0 + v / 0x40, 0x80 + v % 0x40]
    else if v < 0x1_0000 then [0xE0 + v / 0x1000, 0x80 + (v / 0x40) % 0x40, 0x80 + v % 0x40]
    else [0xF0 + v / 0x4_0000, 0x80 + (v / 0x1000) % 0x40, 0x80 + (v / 0x40) % 0x40, 0x80 + v % 0x40]
  }

  function PercentEncoded(bytes: seq<nat>): (r: string)
    requires forall i :: 0 <= i < |bytes| ==> bytes[i] < 0x100
    ensures |r| == 3 * |bytes| && IsEncodedText(r)
  {
    if bytes == [] then []
    else ['%', HexDigit(bytes[0] / 16), HexDigit(bytes[0] % 16)] + PercentEncoded(bytes[1..])
  }

  function EncodeChar(c: char): (r: string)
    ensures IsEncodedText(r)
  {
    if IsUnreserved(c) then [c]
    else if c == ' ' then "+"
    else PercentEncoded(Utf8(c))
  }

  /** `URLEncoder.encode(s, StandardCharsets.UTF_8)`. */
  function Encode(s: string): (r: string)
    ensures IsEncodedText(r)
    ensures IsSafeName(s) ==> r == s
    decreases |s|
  {
    if s == [] then [] else EncodeChar(s[0]) + Encode(s[1..])
  }

  /** Decoding of one name or value (section 5.1 of the WHATWG URL Standard):
      '+' becomes a space and `%XY` the byte XY; a '%' that is not followed by
      two hexadecimal digits stays. Each byte is taken as one character, so
      this agrees with the standard's UTF-8 decoding on ASCII text only. */
  function Decode(s: string): string
    decreases |s|
  {
    if s == [] then []
    else if s[0] == '+' then [' '] + Decode(s[1..])
    else if s[0] == '%' && |s| >= 3 && HexValue(s[1]) >= 0 && HexValue(s[2]) >= 0 then
      [(16 * HexValue(s[1]) + HexValue(s[2])) as char] + Decode(s[3..])
    else [s[0]] + Decode(s[1..])
  }

  lemma DecodeEncodeChar(c: char, rest: string)
    requires (c as int) < 0x80
    ensures Decode(EncodeChar(c) + rest) == [c] + Decode(rest)
  {
    if !IsUnreserved(c) && c != ' ' {
      var v := c as int;
      var e := EncodeChar(c) + rest;
      assert EncodeChar(c) == ['%', HexDigit(v / 16), HexDigit(v % 16)];
      assert HexValue(e[1]) == v / 16 && HexValue(e[2]) == v % 16;
      assert e[3..] == rest;
    } else {
      assert (EncodeChar(c) + rest)[1..] == rest;
    }
  }

  /** Decoding undoes `URLEncoder.encode` on ASCII text. */
  lemma {:induction false} DecodeEncode(s: string)
    requires IsAscii(s)
    ensures Decode(Encode(s)) == s
    decreases |s|
  {
    if s != [] {
      DecodeEncodeChar(s[0], Encode(s[1..]));
      DecodeEncode(s[1..]);
    }
  }

  /** A safe name decodes to itself. */
  lemma {:induction false} DecodeSafeName(s: string)
    requires IsSafeName(s)
    ensures Decode(s) == s
    decreases |s|
  {
    if s != [] {
      DecodeSafeName(s[1..]);
    }
  }

  // ---------------------------------------------------------------------------
  // Splitting and joining on a separator
  // ---------------------------------------------------------------------------

  /** The parts of `s` between occurrences of `sep` ("strictly split"). */
  function Split(s: string, sep: char): (parts: seq<string>)
    ensures |parts| > 0
    ensures forall i :: 0 <= i < |parts| ==> sep !in parts[i]
    decreases |s|
  {
    var i := IndexOf(s, sep);
    if i < 0 then [s] else [s[..i]] + Split(s[i + 1..], sep)
  }

  /** The parts separated by `sep`, without a leading or trailing `sep`. */
  function Join(parts: seq<string>, sep: char): string
    requires |parts| > 0
    decreases |parts|
  {
    if |parts| == 1 then parts[0] else parts[0] + [sep] + Join(parts[1..], sep)
  }

  /** The joined text starts with the first part. */
  lemma JoinStartsWith(parts: seq<string>, sep: char)
    requires |parts| > 0
    ensures |Join(parts, sep)| >= |parts[0]| && Join(parts, sep)[..|parts[0]|] == parts[0]
  {
    if |parts| > 1 {
      assert Join(parts, sep) == parts[0] + ([sep] + Join(parts[1..], sep));
    }
  }

  lemma {:induction false} IndexOfSeparator(p: string, sep: char, rest: string)
    requires sep !in p
    ensures IndexOf(p + [sep] + rest, sep) == |p|
    decreases |p|
  {
    if p != [] {
      assert (p + [sep] + rest)[1..] == p[1..] + [sep] + rest;
      IndexOfSeparator(p[1..], sep, rest);
    }
  }

  /** Splitting undoes joining when no part contains the separator. */
  lemma {:induction false} SplitJoin(parts: seq<string>, sep: char)
    requires |parts| > 0
    requires forall i :: 0 <= i < |parts| ==> sep !in parts[i]
    ensures Split(Join(parts, sep), sep) == parts
    decreases |parts|
  {
    if |parts| > 1 {
      var p := parts[0];
      var rest := Join(parts[1..], sep);
      var s := p + [sep] + rest;
      assert Join(parts, sep) == s;
      IndexOfSeparator(p, sep, rest);
      assert s[..|p|] == p;
      assert s[|p| + 1..] == rest;
      assert Split(s, sep) == [p] + Split(rest, sep);
      SplitJoin(parts[1..], sep);
      assert parts == [p] + parts[1..];
    }
  }

  lemma JoinTwo(a: string, b: string, sep: char)
    ensures Join([a, b], sep) == a + [sep] + b
  {
    assert [a, b][1..] == [b];
  }

  lemma {:induction false} JoinAppend(a: seq<string>, b: seq<string>, sep: char)
    requires |a| > 0 && |b| > 0
    ensures Join(a + b, sep) == Join(a, sep) + [sep] + Join(b, sep)
    decreases |a|
  {
    if |a| == 1 {
      assert (a + b)[1..] == b;
    } else {
      assert (a + b)[1..] == a[1..] + b;
      JoinAppend(a[1..], b, sep);
    }
  }

  // ---------------------------------------------------------------------------
  // Query strings
  // ---------------------------------------------------------------------------

  /** One `name=value` sequence; without '=' the value is empty. */
  function ParsePair(seg: string): (string, string)
  {
    var i := IndexOf(seg, '=');
    if i < 0 then (Decode(seg), "") else (Decode(seg[..i]), Decode(seg[i + 1..]))
  }

  /** The name-value pairs of the non-empty sequences, in order. */
  function ParsePairs(segs: seq<string>): seq<(string, string)>
  {
    if segs == [] then []
    else (if segs[0] == "" then [] else [ParsePair(segs[0])]) + ParsePairs(segs[1..])
  }

  /** The values of each name, in order of appearance. */
  function Group(pairs: seq<(string, string)>): (m: map<string, seq<string>>)
    ensures m.Keys == set i | 0 <= i < |pairs| :: pairs[i].0
    decreases |pairs|
  {
    if pairs == [] then map[]
    else
      var m := Group(pairs[..|pairs| - 1]);
      var (n, v) := pairs[|pairs| - 1];
      assert forall i :: 0 <= i < |pairs| - 1 ==> pairs[..|pairs| - 1][i] == pairs[i];
      m[n := (if n in m then m[n] else []) + [v]]
  }

  /** The request parameters a query string denotes. */
  function ParseQuery(q: string): map<string, seq<string>>
  {
    Group(ParsePairs(Split(q, '&')))
  }

  /** `data.get(name)` when it holds exactly one value. */
  function SingleValue(data: map<string, seq<string>>, name: string): (r: Option<string>)
    ensures r.Some? <==> name in data && |data[name]| == 1
    ensures r.Some? ==> data[name] == [r.value]
  {
    if name in data && |data[name]| == 1 then Some(data[name][0]) else None
  }

  // ---------------------------------------------------------------------------
  // Query strings written by the binders
  // ---------------------------------------------------------------------------

  /** One `name=value` sequence as the binders write it. */
  function FieldText(name: string, value: string): string
  {
    name + "=" + Encode(value)
  }

  function FieldSegments(fields: seq<(string, string)>): (segs: seq<string>)
    ensures |segs| == |fields|
    ensures forall i :: 0 <= i < |segs| ==> segs[i] == FieldText(fields[i].0, fields[i].1)
  {
    if fields == [] then [] else [FieldText(fields[0].0, fields[0].1)] + FieldSegments(fields[1..])
  }

  /** The query string `name1=Encode(value1)&name2=Encode(value2)...`. */
  function FieldsText(fields: seq<(string, string)>): string
    requires |fields| > 0
  {
    Join(FieldSegments(fields), '&')
  }

  /** Fields whose names need no encoding, whose values are ASCII, and whose
      names are pairwise different. */
  predicate WellFormedFields(fields: seq<(string, string)>) {
    && (forall i :: 0 <= i < |fields| ==> IsSafeName(fields[i].0) && IsAscii(fields[i].1))
    && (forall i, j :: 0 <= i < j < |fields| ==> fields[i].0 != fields[j].0)
  }

  /** Two fields whose values need no encoding are written as they are. */
  lemma FieldsTextOfTwo(n1: string, v1: string, n2: string, v2: string)
    requires IsSafeName(v1) && IsSafeName(v2)
    ensures FieldsText([(n1, v1), (n2, v2)]) == n1 + "=" + v1 + "&" + n2 + "=" + v2
  {
    var a, b := FieldText(n1, v1), FieldText(n2, v2);
    assert FieldSegments([(n1, v1), (n2, v2)]) == [a, b];
    JoinTwo(a, b, '&');
  }

  /** The names of the fields. */
  function Names(fields: seq<(string, string)>): set<string> {
    set i | 0 <= i < |fields| :: fields[i].0
  }

  /** Each of the fields is a parameter with exactly its value. */
  predicate Present(fields: seq<(string, string)>, data: map<string, seq<string>>) {
    forall i :: 0 <= i < |fields| ==> fields[i].0 in data && data[fields[i].0] == [fields[i].1]
  }

  lemma FieldsTextAppend(a: seq<(string, string)>, b: seq<(string, string)>)
    requires |a| > 0 && |b| > 0
    ensures FieldsText(a + b) == FieldsText(a) + "&" + FieldsText(b)
  {
    assert FieldSegments(a + b) == FieldSegments(a) + FieldSegments(b);
    JoinAppend(FieldSegments(a), FieldSegments(b), '&');
  }

  lemma ParseFieldText(name: string, value: string)
    requires IsSafeName(name) && IsAscii(value)
    ensures ParsePair(FieldText(name, value)) == (name, value)
    ensures FieldText(name, value) != "" && '&' !in FieldText(name, value)
  {
    var seg := FieldText(name, value);
    SafeNameHasNo(name, '=');
    IndexOfSeparator(name, '=', Encode(value));
    assert seg[..|name|] == name;
    assert seg[|name| + 1..] == Encode(value);
    DecodeSafeName(name);
    DecodeEncode(value);
    FieldTextHasNoAmpersand(name, value);
  }

  lemma SafeNameHasNo(name: string, c: char)
    requires IsSafeName(name) && !IsUnreserved(c)
    ensures c !in name
  {
    forall i | 0 <= i < |name| ensures name[i] != c { assert IsUnreserved(name[i]); }
  }

  lemma EncodedHasNo(s: string, c: char)
    requires IsEncodedText(s) && !IsUnreserved(c) && c != '+' && c != '%'
    ensures c !in s
  {
    forall i | 0 <= i < |s| ensures s[i] != c { assert IsUnreserved(s[i]) || s[i] == '+' || s[i] == '%'; }
  }

  lemma FieldTextHasNoAmpersand(name: string, value: string)
    requires IsSafeName(name)
    ensures '&' !in FieldText(name, value)
  {
    SafeNameHasNo(name, '&');
    EncodedHasNo(Encode(value), '&');
    assert FieldText(name, value) == name + "=" + Encode(value);
  }

  lemma {:induction false} ParseFieldSegments(fields: seq<(string, string)>)
    requires WellFormedFields(fields)
    ensures ParsePairs(FieldSegments(fields)) == fields
    decreases |fields|
  {
    if fields != [] {
      ParseFieldText(fields[0].0, fields[0].1);
      assert WellFormedFields(fields[1..]);
      ParseFieldSegments(fields[1..]);
      assert FieldSegments(fields)[1..] == FieldSegments(fields[1..]);
    }
  }

  /** Each name of pairwise different names is grouped with its one value. */
  lemma {:induction false} GroupDistinct(pairs: seq<(string, string)>)
    requires forall i, j :: 0 <= i < j < |pairs| ==> pairs[i].0 != pairs[j].0
    ensures forall i :: 0 <= i < |pairs| ==> Group(pairs)[pairs[i].0] == [pairs[i].1]
    decreases |pairs|
  {
    if pairs != [] {
      var init := pairs[..|pairs| - 1];
      GroupDistinct(init);
      var last := pairs[|pairs| - 1];
      assert last.0 !in Group(init);
      forall i | 0 <= i < |pairs| ensures Group(pairs)[pairs[i].0] == [pairs[i].1] {
        if i < |pairs| - 1 {
          assert init[i] == pairs[i];
        }
      }
    }
  }

  /** Parsing the text of well-formed fields gives back each name with its one
      value, and no other name. */
  lemma ParseFieldsText(fields: seq<(string, string)>)
    requires |fields| > 0 && WellFormedFields(fields)
    ensures ParseQuery(FieldsText(fields)).Keys == Names(fields)
    ensures Present(fields, ParseQuery(FieldsText(fields)))
  {
    var segs := FieldSegments(fields);
    forall i | 0 <= i < |segs| ensures '&' !in segs[i] {
      ParseFieldText(fields[i].0, fields[i].1);
    }
    SplitJoin(segs, '&');
    ParseFieldSegments(fields);
    GroupDistinct(fields);
  }
}
