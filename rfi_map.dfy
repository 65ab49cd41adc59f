/**
 * The info window of the facility map: HTML escaping of marker text and
 * the assembly of the window's HTML from a marker. `encodeURI` is not
 * modelled; it is passed in as a function.
 */
module RfiMap {
  import opened Wrappers
  import opened Seqs
  import opened JsText

  // ---------------------------------------------------------------------
  // escapeHtml

  /** The five characters `escapeHtml` replaces. */
  predicate IsSpecial(c: char) {
    c == '&' || c == '<' || c == '>' || c == '"' || c == '\''
  }

  /** The characters that could open a tag or end an attribute value. */
  predicate IsMarkup(c: char) {
    c == '<' || c == '>' || c == '"' || c == '\''
  }

  /** The replacement of one character: an entity for a special one, itself otherwise. */
  function EscapeChar(c: char): (r: string)
    ensures !IsSpecial(c) ==> r == [c]
    ensures IsSpecial(c) ==> 4 <= |r| && r[0] == '&' && r[|r| - 1] == ';'
    ensures forall i :: 0 <= i < |r| ==> !IsMarkup(r[i])
  {
    match c
    case '&' => "&amp;"
    case '<' => "&lt;"
    case '>' => "&gt;"
    case '"' => "&quot;"
    case '\'' => "&#39;"
    case _ => [c]
  }

  /** `escapeHtml(s)`: every character replaced by `EscapeChar`, left to right. */
  function Escape(s: string): (r: string)
    ensures |r| >= |s|
    ensures forall i :: 0 <= i < |r| ==> !IsMarkup(r[i])
  {
    if s == [] then [] else EscapeChar(s[0]) + Escape(s[1..])
  }

  /** Escaping is applied piecewise: escaping a concatenation escapes each part. */
  lemma {:induction false} EscapeAppend(a: string, b: string)
    ensures Escape(a + b) == Escape(a) + Escape(b)
  {
    if a == [] {
      assert a + b == b;
    } else {
      assert (a + b)[1..] == a[1..] + b;
      EscapeAppend(a[1..], b);
    }
  }

  /** Text without any of the five characters is emitted unchanged. */
  lemma {:induction false} EscapeClean(s: string)
    requires forall i :: 0 <= i < |s| ==> !IsSpecial(s[i])
    ensures Escape(s) == s
  {
    if s != [] {
      EscapeClean(s[1..]);
    }
  }

  /** The output is exactly as long as the input when, and only when, nothing is replaced. */
  lemma {:induction false} EscapeSameLength(s: string)
    ensures |Escape(s)| == |s| <==> forall i :: 0 <= i < |s| ==> !IsSpecial(s[i])
  {
    if s != [] {
      EscapeSameLength(s[1..]);
      if IsSpecial(s[0]) {
        assert |Escape(s)| > |s|;
      } else {
        forall i | 1 <= i < |s| ensures s[i] == s[1..][i - 1] { }
      }
    }
  }

  /** `p` is a prefix of `s`. */
  predicate StartsWith(s: string, p: string) {
    OccursAt(s, p, 0)
  }

  /** Decodes the five entities `escapeHtml` produces and keeps everything else. */
  function Unescape(s: string): string
    decreases |s|
  {
    if s == [] then []
    else if s[0] != '&' then [s[0]] + Unescape(s[1..])
    else if StartsWith(s, "&amp;") then "&" + Unescape(s[5..])
    else if StartsWith(s, "&lt;") then "<" + Unescape(s[4..])
    else if StartsWith(s, "&gt;") then ">" + Unescape(s[4..])
    else if StartsWith(s, "&quot;") then "\"" + Unescape(s[6..])
    else if StartsWith(s, "&#39;") then "'" + Unescape(s[5..])
    else [s[0]] + Unescape(s[1..])
  }

  // Decoding each entity `escapeHtml` produces, followed by anything.

  lemma UnescapeAmp(rest: string)
    ensures Unescape("&amp;" + rest) == "&" + Unescape(rest)
  {
    var e := "&amp;" + rest;
    assert e[0] == '&' && e[1] == 'a';
    assert e[..5] == "&amp;" && e[5..] == rest;
  }

  lemma UnescapeLt(rest: string)
    ensures Unescape("&lt;" + rest) == "<" + Unescape(rest)
  {
    var e := "&lt;" + rest;
    assert e[0] == '&' && e[1] == 'l';
    assert e[..4] == "&lt;" && e[4..] == rest;
  }

  lemma UnescapeGt(rest: string)
    ensures Unescape("&gt;" + rest) == ">" + Unescape(rest)
  {
    var e := "&gt;" + rest;
    assert e[0] == '&' && e[1] == 'g';
    assert e[..4] == "&gt;" && e[4..] == rest;
  }

  lemma UnescapeQuot(rest: string)
    ensures Unescape("&quot;" + rest) == "\"" + Unescape(rest)
  {
    var e := "&quot;" + rest;
    assert e[0] == '&' && e[1] == 'q';
    assert e[..6] == "&quot;" && e[6..] == rest;
  }

  lemma UnescapeApos(rest: string)
    ensures Unescape("&#39;" + rest) == "'" + Unescape(rest)
  {
    var e := "&#39;" + rest;
    assert e[0] == '&' && e[1] == '#';
    assert e[..5] == "&#39;" && e[5..] == rest;
  }

  /** Decoding the replacement of one character, followed by anything, gives that character back. */
  lemma UnescapeChar(c: char, rest: string)
    ensures Unescape(EscapeChar(c) + rest) == [c] + Unescape(rest)
  {
    if c == '&' {
      UnescapeAmp(rest);
    } else if c == '<' {
      UnescapeLt(rest);
    } else if c == '>' {
      UnescapeGt(rest);
    } else if c == '"' {
      UnescapeQuot(rest);
    } else if c == '\'' {
      UnescapeApos(rest);
    } else {
      var e := EscapeChar(c) + rest;
      assert e[0] == c && e[1..] == rest;
    }
  }

  /** Escaping loses nothing: decoding the escaped text gives the original. */
  lemma {:induction false} UnescapeEscape(s: string)
    ensures Unescape(Escape(s)) == s
  {
    if s != [] {
      UnescapeChar(s[0], Escape(s[1..]));
      UnescapeEscape(s[1..]);
    }
  }

  // ---------------------------------------------------------------------
  // buildInfoHtml

  datatype Position = Position(lat: real, lng: real)

  /** A marker of the map; `None` is an omitted field. */
  datatype MarkerData = MarkerData(
    id: string,
    name: string,
    position: Position,
    category: Option<string>,
    address: Option<string>,
    phone: Option<string>,
    website: Option<string>,
    description: Option<string>,
    tags: Option<seq<string>>)

  /** `parts.join(sep)` */
  function Join(parts: seq<string>, sep: string): string {
    if parts == [] then ""
    else if |parts| == 1 then parts[0]
    else parts[0] + sep + Join(parts[1..], sep)
  }

  /** Whatever occurs in `mid` occurs in `pre + mid + post`. */
  lemma ContainsWithin(pre: string, mid: string, post: string, sub: string)
    requires Contains(mid, sub)
    ensures Contains(pre + mid + post, sub)
  {
    var k :| 0 <= k <= |mid| - |sub| && OccursAt(mid, sub, k);
    var s := pre + mid + post;
    assert s[|pre| + k..|pre| + k + |sub|] == mid[k..k + |sub|];
    assert OccursAt(s, sub, |pre| + k);
  }

  /** Every part appears in the joined text. */
  lemma {:induction false} JoinContains(parts: seq<string>, sep: string, i: nat)
    requires i < |parts|
    ensures Contains(Join(parts, sep), parts[i])
  {
    if |parts| == 1 {
      ContainsSelf(parts[0]);
    } else if i == 0 {
      assert OccursAt(Join(parts, sep), parts[0], 0);
    } else {
      JoinContains(parts[1..], sep, i - 1);
      assert parts[1..][i - 1] == parts[i];
      ContainsWithin(parts[0] + sep, Join(parts[1..], sep), "", parts[i]);
      assert parts[0] + sep + Join(parts[1..], sep) + "" == Join(parts, sep);
    }
  }

  /** The optional rows of the info window, in the order they are emitted. */
  datatype Field = Category | Address | Phone | Website | Description | Tags

  const FIELDS: seq<Field> := [Category, Address, Phone, Website, Description, Tags]

  function Rank(f: Field): nat {
    match f
    case Category => 0
    case Address => 1
    case Phone => 2
    case Website => 3
    case Description => 4
    case Tags => 5
  }

  predicate RankBefore(f: Field, g: Field) {
    Rank(f) < Rank(g)
  }

  /** A row is emitted for a text field that is present and non-empty, and for a non-empty tag list. */
  predicate Shown(m: MarkerData, f: Field) {
    match f
    case Category => Truthy(m.category)
    case Address => Truthy(m.address)
    case Phone => Truthy(m.phone)
    case Website => Truthy(m.website)
    case Description => Truthy(m.description)
    case Tags => m.tags.Some? && |m.tags.value| > 0
  }

  function ShownIn(m: MarkerData): Field -> bool {
    (f: Field) => Shown(m, f)
  }

  /** The fields that get a row, in emission order. */
  function ShownFields(m: MarkerData): seq<Field> {
    Filter(FIELDS, ShownIn(m))
  }

  const DIV_CLOSE := "</div>"
  const INFO_OPEN := "<div style=\"max-width:260px\">"
  const NAME_OPEN := "<div style=\"font-weight:600;margin-bottom:4px\">"
  const NOTE_OPEN := "<div style=\"margin-top:6px\">"

  /** The HTML of one row; `encodeUri` stands for `encodeURI`. */
  function RowText(m: MarkerData, f: Field, encodeUri: string -> string): string {
    match f
    case Category => "<div><strong>Category:</strong> " + Escape(m.category.GetOr("")) + DIV_CLOSE
    case Address => "<div><strong>Address:</strong> " + Escape(m.address.GetOr("")) + DIV_CLOSE
    case Phone => "<div><strong>Phone:</strong> " + Escape(m.phone.GetOr("")) + DIV_CLOSE
    case Website =>
      var w := m.website.GetOr("");
      "<div><strong>Website:</strong> <a href=\"" + encodeUri(w)
        + "\" target=\"_blank\" rel=\"noreferrer\">" + Escape(w) + "</a>" + DIV_CLOSE
    case Description => NOTE_OPEN + Escape(m.description.GetOr("")) + DIV_CLOSE
    case Tags => NOTE_OPEN + "<strong>Tags:</strong> " + Join(EscapeAll(m.tags.GetOr([])), ", ") + DIV_CLOSE
  }

  /** `tags.map(escapeHtml)` */
  function EscapeAll(tags: seq<string>): (r: seq<string>)
    ensures |r| == |tags|
    ensures forall i :: 0 <= i < |r| ==> r[i] == Escape(tags[i])
  {
    if tags == [] then [] else [Escape(tags[0])] + EscapeAll(tags[1..])
  }

  /** The rows of the shown fields, in the same order. */
  function Rows(m: MarkerData, fields: seq<Field>, encodeUri: string -> string): (r: seq<string>)
    ensures |r| == |fields|
    ensures forall i :: 0 <= i < |r| ==> r[i] == RowText(m, fields[i], encodeUri)
  {
    if fields == [] then [] else [RowText(m, fields[0], encodeUri)] + Rows(m, fields[1..], encodeUri)
  }

  /** The info window: the escaped name in the header, then the rows of the shown fields. */
  function InfoHtml(m: MarkerData, encodeUri: string -> string): string {
    INFO_OPEN + NAME_OPEN + Escape(m.name) + DIV_CLOSE
      + Join(Rows(m, ShownFields(m), encodeUri), "") + DIV_CLOSE
  }

  /** A field has a row exactly when it is present (non-empty, for the tags a non-empty list). */
  lemma ShownFieldsMember(m: MarkerData, f: Field)
    ensures f in ShownFields(m) <==> Shown(m, f)
  {
    FilterMember(FIELDS, ShownIn(m), f);
  }

  /** The rows come in the fixed order category, address, phone, website, description, tags. */
  lemma ShownFieldsInOrder(m: MarkerData)
    ensures forall i, j :: 0 <= i < j < |ShownFields(m)| ==> Rank(ShownFields(m)[i]) < Rank(ShownFields(m)[j])
  {
    assert Sorted(FIELDS, RankBefore);
    FilterSorted(FIELDS, ShownIn(m), RankBefore);
  }

  /** Every tag of a tags row appears in it, escaped. */
  lemma TagsRowHoldsTags(m: MarkerData, encodeUri: string -> string, i: nat)
    requires m.tags.Some? && i < |m.tags.value|
    ensures Contains(RowText(m, Tags, encodeUri), Escape(m.tags.value[i]))
  {
    var parts := EscapeAll(m.tags.value);
    var joined := Join(parts, ", ");
    JoinContains(parts, ", ", i);
    ContainsWithin(NOTE_OPEN + "<strong>Tags:</strong> ", joined, DIV_CLOSE, parts[i]);
  }

  /** Handling field `k` adds it to the shown fields of the first `k` exactly when it is shown. */
  lemma ShownPrefixStep(m: MarkerData, k: nat)
    requires k < |FIELDS|
    ensures Filter(FIELDS[..k + 1], ShownIn(m))
         == Filter(FIELDS[..k], ShownIn(m)) + (if Shown(m, FIELDS[k]) then [FIELDS[k]] else [])
  {
    assert FIELDS[..k + 1] == FIELDS[..k] + [FIELDS[k]];
    FilterSnoc(FIELDS[..k], FIELDS[k], ShownIn(m));
  }

  /** The rows of two field lists, one after the other. */
  lemma {:induction false} RowsAppend(m: MarkerData, a: seq<Field>, b: seq<Field>, encodeUri: string -> string)
    ensures Rows(m, a + b, encodeUri) == Rows(m, a, encodeUri) + Rows(m, b, encodeUri)
  {
    if a == [] {
      assert a + b == b;
    } else {
      assert (a + b)[1..] == a[1..] + b;
      RowsAppend(m, a[1..], b, encodeUri);
    }
  }

  /** The row of a field when it is shown, nothing otherwise. */
  function RowIfShown(m: MarkerData, f: Field, encodeUri: string -> string): seq<string> {
    if Shown(m, f) then [RowText(m, f, encodeUri)] else []
  }

  /** The rows of the first `k` fields. */
  function RowsUpTo(m: MarkerData, k: nat, encodeUri: string -> string): seq<string>
    requires k <= |FIELDS|
  {
    Rows(m, Filter(FIELDS[..k], ShownIn(m)), encodeUri)
  }

  /** One `if (m.field) rows.push(...)` step extends the rows of the first `k` fields to `k + 1`. */
  lemma PushStep(m: MarkerData, k: nat, encodeUri: string -> string, rows: seq<string>, rows': seq<string>)
    requires k < |FIELDS|
    requires rows == RowsUpTo(m, k, encodeUri)
    requires rows' == rows + RowIfShown(m, FIELDS[k], encodeUri)
    ensures rows' == RowsUpTo(m, k + 1, encodeUri)
  {
    ShownPrefixStep(m, k);
    var f := FIELDS[k];
    RowsAppend(m, Filter(FIELDS[..k], ShownIn(m)), if Shown(m, f) then [f] else [], encodeUri);
  }

  /** One `if (m.field) rows.push(row)` line of `buildInfoHtml`. */
  method PushIfShown(rows: seq<string>, m: MarkerData, f: Field, encodeUri: string -> string)
    returns (rows': seq<string>)
    ensures rows' == rows + RowIfShown(m, f, encodeUri)
  {
    rows' := rows;
    if Shown(m, f) {
      rows' := rows' + [RowText(m, f, encodeUri)];
    }
  }

  /**
   * `buildInfoHtml`: pushes the row of each present field in turn, then
   * wraps the escaped name and the joined rows.
   */
  method BuildInfoHtml(m: MarkerData, encodeUri: string -> string) returns (html: string)
    ensures html == InfoHtml(m, encodeUri)
    ensures StartsWith(html, INFO_OPEN + NAME_OPEN + Escape(m.name) + DIV_CLOSE)
  {
    var rows: seq<string> := [];
    assert FIELDS[..0] == [];
    ghost var before := rows;
    rows := PushIfShown(rows, m, Category, encodeUri);
    PushStep(m, 0, encodeUri, before, rows);
    before := rows;
    rows := PushIfShown(rows, m, Address, encodeUri);
    PushStep(m, 1, encodeUri, before, rows);
    before := rows;
    rows := PushIfShown(rows, m, Phone, encodeUri);
    PushStep(m, 2, encodeUri, before, rows);
    before := rows;
    rows := PushIfShown(rows, m, Website, encodeUri);
    PushStep(m, 3, encodeUri, before, rows);
    before := rows;
    rows := PushIfShown(rows, m, Description, encodeUri);
    PushStep(m, 4, encodeUri, before, rows);
    before := rows;
    rows := PushIfShown(rows, m, Tags, encodeUri);
    PushStep(m, 5, encodeUri, before, rows);
    assert FIELDS[..6] == FIELDS;
    var header := INFO_OPEN + NAME_OPEN + Escape(m.name) + DIV_CLOSE;
    html := header + Join(rows, "") + DIV_CLOSE;
    assert html[..|header|] == header;
  }
}
