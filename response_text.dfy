/**
 * The text of a streaming JSON response.
 *
 * A response is one of three documents: nothing at all, a bare array of rows,
 * or an object whose named sections each hold one value or an array of rows.
 * `Render` is the complete text of such a document, written as a whole;
 * `Frags` is the list of fragments a responder has written for it before it
 * is ended, and `ClosingFrags` what ending adds. `ResponseIsRendered` proves
 * that the fragments spell out exactly the rendered document. The row and
 * value texts come from a caller-supplied `json` function, which stands for
 * `JSON.stringify`.
 *
 * The fragment functions recurse on a count (`...UpTo`) rather than on
 * slices, which keeps the verifier from unfolding them without end.
 */
module ResponseText {
  import opened Strings

  datatype Section<V> =
    | ValueSection(name: string, value: V)
    | RowSection(name: string, rows: seq<V>)

  datatype Doc<V> =
    | Blank
    | RowArray(rows: seq<V>)
    | Object(sections: seq<Section<V>>)

  lemma TakeSnoc<T>(s: seq<T>, n: nat)
    requires 1 <= n <= |s|
    ensures s[..n] == s[..n - 1] + [s[n - 1]]
  {
  }

  lemma TakeAll<T>(s: seq<T>)
    ensures s[..|s|] == s
  {
  }

  lemma TakeOne<T>(s: seq<T>)
    requires |s| >= 1
    ensures s[..1] == [s[0]]
  {
  }

  // ---------------------------------------------------------------------
  // The text of a list of fragments

  /** The text of the first `n` fragments, written one after the other. */
  function ConcatUpTo(frags: seq<string>, n: nat): string
    requires n <= |frags|
  {
    if n == 0 then "" else ConcatUpTo(frags, n - 1) + frags[n - 1]
  }

  /** The text of a response: its fragments written one after the other. */
  function Concat(frags: seq<string>): string
  {
    ConcatUpTo(frags, |frags|)
  }

  lemma {:induction false} ConcatUpToPrefix(a: seq<string>, b: seq<string>, n: nat)
    requires n <= |a| && n <= |b|
    requires forall i :: 0 <= i < n ==> a[i] == b[i]
    ensures ConcatUpTo(a, n) == ConcatUpTo(b, n)
  {
    if n > 0 {
      ConcatUpToPrefix(a, b, n - 1);
    }
  }

  /** Writing more fragments appends their text. */
  lemma {:induction false} ConcatAppend(a: seq<string>, b: seq<string>)
    ensures Concat(a + b) == Concat(a) + Concat(b)
    decreases |b|
  {
    if b == [] {
      assert a + b == a;
    } else {
      var b' := b[..|b| - 1];
      ConcatAppend(a, b');
      ConcatUpToPrefix(a + b, a + b', |a + b'|);
      ConcatUpToPrefix(b, b', |b'|);
      assert Concat(a + b) == Concat(a + b') + b[|b| - 1];
    }
  }

  lemma ConcatSingle(x: string)
    ensures Concat([x]) == x
  {
    assert ConcatUpTo([x], 0) == "";
    assert "" + x == x;
  }

  lemma ConcatEmpty()
    ensures Concat([]) == ""
  {
  }

  // ---------------------------------------------------------------------
  // The rendered document

  function Jsons<V>(json: V -> string, rows: seq<V>): (r: seq<string>)
    ensures |r| == |rows| && forall i :: 0 <= i < |rows| ==> r[i] == json(rows[i])
  {
    seq(|rows|, i requires 0 <= i < |rows| => json(rows[i]))
  }

  /** `"name": ` — the name is spliced in as it is, without JSON escaping. */
  function Header(name: string): string
  {
    "\"" + name + "\": "
  }

  /** A JSON array of the rows: `[r1,r2,...]`. */
  function RowsArray<V>(json: V -> string, rows: seq<V>): string
  {
    "[" + JoinWith(Jsons(json, rows), ",") + "]"
  }

  /** What follows a section's header: its value, or the array of its rows. */
  function SectionBody<V>(json: V -> string, s: Section<V>): string
  {
    match s
    case ValueSection(_, v) => json(v)
    case RowSection(_, rows) => RowsArray(json, rows)
  }

  function SectionText<V>(json: V -> string, s: Section<V>): string
  {
    Header(s.name) + SectionBody(json, s)
  }

  function SectionTexts<V>(json: V -> string, ss: seq<Section<V>>): (r: seq<string>)
    ensures |r| == |ss| && forall i :: 0 <= i < |ss| ==> r[i] == SectionText(json, ss[i])
  {
    seq(|ss|, i requires 0 <= i < |ss| => SectionText(json, ss[i]))
  }

  /** The complete text of a document. */
  function Render<V>(json: V -> string, doc: Doc<V>): string
  {
    match doc
    case Blank => "[]"
    case RowArray(rows) => RowsArray(json, rows)
    case Object(ss) => "{" + JoinWith(SectionTexts(json, ss), ",") + "}"
  }

  // ---------------------------------------------------------------------
  // Documents as a responder builds them

  /** Documents a responder can build: an array has a row, an object has a section. */
  predicate WellShaped<V>(doc: Doc<V>)
  {
    (doc.RowArray? ==> |doc.rows| > 0) && (doc.Object? ==> |doc.sections| > 0)
  }

  /** Whether the document ends in an array of rows that more rows may join. */
  predicate RowsOpen<V>(doc: Doc<V>)
  {
    doc.RowArray? || (doc.Object? && |doc.sections| > 0 && doc.sections[|doc.sections| - 1].RowSection?)
  }

  /** The rows of the array that is still open (none when no array is open). */
  function OpenRows<V>(doc: Doc<V>): seq<V>
  {
    match doc
    case RowArray(rows) => rows
    case Object(ss) =>
      if |ss| > 0 && ss[|ss| - 1].RowSection? then ss[|ss| - 1].rows else []
    case Blank => []
  }

  /** Adding a section to a document that has no array of rows. */
  function WithSection<V>(doc: Doc<V>, s: Section<V>): (r: Doc<V>)
    requires !doc.RowArray?
    ensures r.Object? && |r.sections| > 0 && r.sections[|r.sections| - 1] == s
    ensures WellShaped(r) && RowsOpen(r) == s.RowSection? && OpenRows(r) == (if s.RowSection? then s.rows else [])
  {
    match doc
    case Blank => Object([s])
    case Object(ss) => Object(ss + [s])
  }

  /** A row added to a new row section joins that section's rows. */
  lemma WithRowInSection<V>(doc: Doc<V>, name: string, rows: seq<V>, row: V)
    requires !doc.RowArray?
    ensures WithRow(WithSection(doc, RowSection(name, rows)), row) == WithSection(doc, RowSection(name, rows + [row]))
  {
    if doc.Object? {
      var ss := doc.sections;
      assert (ss + [RowSection(name, rows)])[|ss| := RowSection(name, rows + [row])] == ss + [RowSection(name, rows + [row])];
    }
  }

  /** Whether a row may be written: nothing written yet, or an array of rows is open. */
  predicate CanWrite<V>(doc: Doc<V>)
  {
    doc.Blank? || RowsOpen(doc)
  }

  /** Adding a row: a blank document becomes an array, otherwise the open array grows. */
  function WithRow<V>(doc: Doc<V>, row: V): (r: Doc<V>)
    requires CanWrite(doc)
    ensures OpenRows(r) == OpenRows(doc) + [row]
    ensures WellShaped(r) && RowsOpen(r) && r.RowArray? == (doc.Blank? || doc.RowArray?)
  {
    match doc
    case Blank => RowArray([row])
    case RowArray(rows) => RowArray(rows + [row])
    case Object(ss) =>
      var last := ss[|ss| - 1];
      Object(ss[|ss| - 1 := RowSection(last.name, last.rows + [row])])
  }

  // ---------------------------------------------------------------------
  // The fragments a responder writes for a document

  /** The fragments of the first `n` rows: each row's text, with a `,` fragment before every row but the first. */
  function RowFragsUpTo<V>(json: V -> string, rows: seq<V>, n: nat): seq<string>
    requires n <= |rows|
  {
    if n == 0 then []
    else RowFragsUpTo(json, rows, n - 1) + (if n > 1 then [","] else []) + [json(rows[n - 1])]
  }

  function RowFrags<V>(json: V -> string, rows: seq<V>): seq<string>
  {
    RowFragsUpTo(json, rows, |rows|)
  }

  /** The fragments of a section after its header: its value, or `[` and its rows. */
  function BodyFrags<V>(json: V -> string, s: Section<V>): seq<string>
  {
    match s
    case ValueSection(_, v) => [json(v)]
    case RowSection(_, rows) => ["["] + RowFrags(json, rows)
  }

  /** The `]` written before section `n` (counting from 1) when the section before it was an array. */
  function CloseBefore<V>(ss: seq<Section<V>>, n: nat): seq<string>
    requires 1 <= n <= |ss|
  {
    if n > 1 && ss[n - 2].RowSection? then ["]"] else []
  }

  /** The header fragment of section `n` (counting from 1): `{` before the first, `,` before a later one. */
  function HeaderFrag<V>(ss: seq<Section<V>>, n: nat): string
    requires 1 <= n <= |ss|
  {
    (if n == 1 then "{" else ",") + Header(ss[n - 1].name)
  }

  /** The fragments of the first `n` sections, the last array left open. */
  function ObjectFragsUpTo<V>(json: V -> string, ss: seq<Section<V>>, n: nat): seq<string>
    requires n <= |ss|
  {
    if n == 0 then []
    else ObjectFragsUpTo(json, ss, n - 1) + CloseBefore(ss, n) + [HeaderFrag(ss, n)] + BodyFrags(json, ss[n - 1])
  }

  /** The fragments written before the response is ended. */
  function Frags<V>(json: V -> string, doc: Doc<V>): seq<string>
  {
    match doc
    case Blank => []
    case RowArray(rows) => ["["] + RowFrags(json, rows)
    case Object(ss) => ObjectFragsUpTo(json, ss, |ss|)
  }

  /**
   * The fragments a new section adds: `]` when an array was open, the header
   * with `{` before the first section and `,` before a later one, then the body.
   */
  function NewSectionFrags<V>(json: V -> string, rowsOpen: bool, first: bool, s: Section<V>): seq<string>
  {
    (if rowsOpen then ["]"] else []) + [(if first then "{" else ",") + Header(s.name)] + BodyFrags(json, s)
  }

  /** The fragments a new row adds: `[` when it starts a bare array, `,` after an earlier row, then the row. */
  function NewRowFrags<V>(json: V -> string, startsArray: bool, afterRow: bool, row: V): seq<string>
  {
    (if startsArray then ["["] else []) + (if afterRow then [","] else []) + [json(row)]
  }

  /** What ending adds: the open array's `]`, then nothing for an array, `[]` for nothing written, `}` for an object. */
  function EndFrags(rowsOpen: bool, isArray: bool, blank: bool): seq<string>
  {
    (if rowsOpen then ["]"] else []) + (if isArray then [] else if blank then ["[]"] else ["}"])
  }

  function ClosingFrags<V>(doc: Doc<V>): seq<string>
  {
    EndFrags(RowsOpen(doc), doc.RowArray?, doc.Blank?)
  }

  lemma {:induction false} RowFragsPrefix<V>(json: V -> string, a: seq<V>, b: seq<V>, n: nat)
    requires n <= |a| && n <= |b|
    requires forall i :: 0 <= i < n ==> a[i] == b[i]
    ensures RowFragsUpTo(json, a, n) == RowFragsUpTo(json, b, n)
  {
    if n > 0 {
      RowFragsPrefix(json, a, b, n - 1);
    }
  }

  lemma {:induction false} ObjectFragsPrefix<V>(json: V -> string, a: seq<Section<V>>, b: seq<Section<V>>, n: nat)
    requires n <= |a| && n <= |b|
    requires forall i :: 0 <= i < n ==> a[i] == b[i]
    ensures ObjectFragsUpTo(json, a, n) == ObjectFragsUpTo(json, b, n)
  {
    if n > 0 {
      ObjectFragsPrefix(json, a, b, n - 1);
    }
  }

  lemma RowFragsSnoc<V>(json: V -> string, rows: seq<V>, row: V)
    ensures RowFrags(json, rows + [row]) == RowFrags(json, rows) + (if |rows| > 0 then [","] else []) + [json(row)]
  {
    RowFragsPrefix(json, rows + [row], rows, |rows|);
  }

  /** Adding a section to the document adds its fragments to the response. */
  lemma FragsWithSection<V>(json: V -> string, doc: Doc<V>, s: Section<V>)
    requires WellShaped(doc) && !doc.RowArray?
    ensures Frags(json, WithSection(doc, s)) == Frags(json, doc) + NewSectionFrags(json, RowsOpen(doc), doc.Blank?, s)
  {
    FragsWithSectionSteps(json, doc, s);
    var close: seq<string> := if RowsOpen(doc) then ["]"] else [];
    var header := [(if doc.Blank? then "{" else ",") + Header(s.name)];
    AppendAssoc(Frags(json, doc) + close, header, BodyFrags(json, s));
    AppendAssoc(Frags(json, doc), close, header + BodyFrags(json, s));
    AppendAssoc(close, header, BodyFrags(json, s));
  }

  lemma FragsWithSectionSteps<V>(json: V -> string, doc: Doc<V>, s: Section<V>)
    requires WellShaped(doc) && !doc.RowArray?
    ensures Frags(json, WithSection(doc, s))
         == Frags(json, doc) + (if RowsOpen(doc) then ["]"] else [])
            + [(if doc.Blank? then "{" else ",") + Header(s.name)] + BodyFrags(json, s)
  {
    if doc.Object? {
      ObjectFragsNextSection(json, doc.sections, s);
    } else {
      ObjectFragsFirstSection(json, s);
    }
  }

  lemma ObjectFragsFirstSection<V>(json: V -> string, s: Section<V>)
    ensures ObjectFragsUpTo(json, [s], 1) == [] + [("{" + Header(s.name))] + BodyFrags(json, s)
  {
    assert ObjectFragsUpTo(json, [s], 0) == [];
    assert CloseBefore([s], 1) == [];
  }

  lemma ObjectFragsNextSection<V>(json: V -> string, ss: seq<Section<V>>, s: Section<V>)
    requires |ss| > 0
    ensures ObjectFragsUpTo(json, ss + [s], |ss| + 1)
         == ObjectFragsUpTo(json, ss, |ss|) + (if ss[|ss| - 1].RowSection? then ["]"] else [])
            + [("," + Header(s.name))] + BodyFrags(json, s)
  {
    var ss' := ss + [s];
    ObjectFragsPrefix(json, ss', ss, |ss|);
    assert ss'[|ss|] == s && ss'[|ss| - 1] == ss[|ss| - 1];
  }

  /** The fragments a new row adds to the last section's open array. */
  lemma ObjectFragsWithRow<V>(json: V -> string, ss: seq<Section<V>>, row: V)
    requires |ss| > 0 && ss[|ss| - 1].RowSection?
    ensures Frags(json, WithRow(Object(ss), row))
         == ObjectFragsUpTo(json, ss, |ss|) + (if |ss[|ss| - 1].rows| > 0 then [","] else []) + [json(row)]
  {
    var k := |ss| - 1;
    var last := ss[k];
    var last' := RowSection(last.name, last.rows + [row]);
    var ss' := ss[k := last'];
    assert WithRow(Object(ss), row) == Object(ss');
    ObjectFragsPrefix(json, ss', ss, k);
    var pre := ObjectFragsUpTo(json, ss, k) + CloseBefore(ss, |ss|) + [HeaderFrag(ss, |ss|)];
    assert ObjectFragsUpTo(json, ss', |ss'|) == pre + BodyFrags(json, last');
    assert ObjectFragsUpTo(json, ss, |ss|) == pre + BodyFrags(json, last);
    var sep: seq<string> := if |last.rows| > 0 then [","] else [];
    RowFragsSnoc(json, last.rows, row);
    AppendAssoc(["["], RowFrags(json, last.rows) + sep, [json(row)]);
    AppendAssoc(["["], RowFrags(json, last.rows), sep);
    AppendAssoc(pre, BodyFrags(json, last) + sep, [json(row)]);
    AppendAssoc(pre, BodyFrags(json, last), sep);
  }

  /** Adding a row to the document adds its fragments to the response. */
  lemma FragsWithRow<V>(json: V -> string, doc: Doc<V>, row: V)
    requires WellShaped(doc) && CanWrite(doc)
    ensures Frags(json, WithRow(doc, row)) == Frags(json, doc) + NewRowFrags(json, doc.Blank?, |OpenRows(doc)| > 0, row)
  {
    FragsWithRowSteps(json, doc, row);
    var open: seq<string> := if doc.Blank? then ["["] else [];
    var sep: seq<string> := if |OpenRows(doc)| > 0 then [","] else [];
    AppendAssoc(Frags(json, doc) + open, sep, [json(row)]);
    AppendAssoc(Frags(json, doc), open, sep + [json(row)]);
    AppendAssoc(open, sep, [json(row)]);
  }

  lemma FragsWithRowSteps<V>(json: V -> string, doc: Doc<V>, row: V)
    requires WellShaped(doc) && CanWrite(doc)
    ensures Frags(json, WithRow(doc, row))
         == Frags(json, doc) + (if doc.Blank? then ["["] else [])
            + (if |OpenRows(doc)| > 0 then [","] else []) + [json(row)]
  {
    match doc
    case Blank =>
      FirstRowFrags(json, row);
    case RowArray(rows) =>
      ArrayFragsWithRow(json, rows, row);
    case Object(ss) =>
      ObjectFragsWithRow(json, ss, row);
  }

  lemma FirstRowFrags<V>(json: V -> string, row: V)
    ensures Frags(json, WithRow(Blank, row)) == [] + ["["] + [] + [json(row)]
  {
    var empty: seq<string> := [];
    assert RowFragsUpTo(json, [row], 0) == empty;
    assert RowFrags(json, [row]) == empty + empty + [json(row)];
  }

  lemma ArrayFragsWithRow<V>(json: V -> string, rows: seq<V>, row: V)
    ensures Frags(json, RowArray(rows + [row]))
         == Frags(json, RowArray(rows)) + (if |rows| > 0 then [","] else []) + [json(row)]
  {
    RowFragsSnoc(json, rows, row);
    var sep: seq<string> := if |rows| > 0 then [","] else [];
    AppendAssoc(["["], RowFrags(json, rows) + sep, [json(row)]);
    AppendAssoc(["["], RowFrags(json, rows), sep);
  }

  // ---------------------------------------------------------------------
  // The fragments spell out the rendered document

  /** The first `n` row fragments spell out the first `n` rows' texts joined by commas. */
  lemma {:induction false} RowFragsText<V>(json: V -> string, rows: seq<V>, n: nat)
    requires n <= |rows|
    ensures Concat(RowFragsUpTo(json, rows, n)) == JoinWith(Jsons(json, rows)[..n], ",")
  {
    if n > 0 {
      RowFragsText(json, rows, n - 1);
      var sep: seq<string> := if n > 1 then [","] else [];
      var pre := RowFragsUpTo(json, rows, n - 1);
      ConcatAppend(pre, sep);
      ConcatAppend(pre + sep, [json(rows[n - 1])]);
      ConcatSingle(json(rows[n - 1]));
      if n > 1 { ConcatSingle(","); } else { ConcatEmpty(); }
      var texts := Jsons(json, rows);
      TakeSnoc(texts, n);
      JoinWithSnoc(texts[..n - 1], ",", json(rows[n - 1]));
    }
  }

  /** All the row fragments, between `[` and `]`, spell out the rows' JSON array. */
  lemma RowFragsArray<V>(json: V -> string, rows: seq<V>)
    ensures "[" + Concat(RowFrags(json, rows)) + "]" == RowsArray(json, rows)
  {
    RowFragsText(json, rows, |rows|);
    TakeAll(Jsons(json, rows));
  }

  /** A section's body fragments, followed by `]` for an array, spell out the section's body. */
  lemma BodyFragsText<V>(json: V -> string, s: Section<V>)
    ensures Concat(BodyFrags(json, s)) + (if s.RowSection? then "]" else "") == SectionBody(json, s)
  {
    match s
    case ValueSection(_, v) =>
      ConcatSingle(json(v));
    case RowSection(_, rows) =>
      ConcatAppend(["["], RowFrags(json, rows));
      ConcatSingle("[");
      RowFragsArray(json, rows);
  }

  /** What `ObjectFragsText` states of the first `n` sections. */
  predicate ObjectSpelled<V>(json: V -> string, ss: seq<Section<V>>, n: nat)
    requires 1 <= n <= |ss|
  {
    Concat(ObjectFragsUpTo(json, ss, n)) + (if ss[n - 1].RowSection? then "]" else "")
      == "{" + JoinWith(SectionTexts(json, ss)[..n], ",")
  }

  /** The text section `n` adds: its closing `]` of the previous array, its header and its body. */
  lemma SectionStepText<V>(json: V -> string, ss: seq<Section<V>>, n: nat)
    requires 1 <= n <= |ss|
    ensures Concat(ObjectFragsUpTo(json, ss, n))
         == Concat(ObjectFragsUpTo(json, ss, n - 1)) + Concat(CloseBefore(ss, n))
            + Concat([HeaderFrag(ss, n)] + BodyFrags(json, ss[n - 1]))
    ensures Concat([HeaderFrag(ss, n)] + BodyFrags(json, ss[n - 1])) + (if ss[n - 1].RowSection? then "]" else "")
         == (if n == 1 then "{" else ",") + SectionText(json, ss[n - 1])
  {
    var pre := ObjectFragsUpTo(json, ss, n - 1);
    var tail := [HeaderFrag(ss, n)] + BodyFrags(json, ss[n - 1]);
    AppendAssoc(pre + CloseBefore(ss, n), [HeaderFrag(ss, n)], BodyFrags(json, ss[n - 1]));
    ConcatAppend(pre + CloseBefore(ss, n), tail);
    ConcatAppend(pre, CloseBefore(ss, n));
    ConcatAppend([HeaderFrag(ss, n)], BodyFrags(json, ss[n - 1]));
    ConcatSingle(HeaderFrag(ss, n));
    BodyFragsText(json, ss[n - 1]);
    var lead := if n == 1 then "{" else ",";
    var body := Concat(BodyFrags(json, ss[n - 1]));
    var close := if ss[n - 1].RowSection? then "]" else "";
    assert Concat(tail) + close == (lead + Header(ss[n - 1].name) + body) + close;
    AppendAssoc(lead + Header(ss[n - 1].name), body, close);
    AppendAssoc(lead, Header(ss[n - 1].name), SectionBody(json, ss[n - 1]));
  }

  lemma ObjectSpelledFirst<V>(json: V -> string, ss: seq<Section<V>>)
    requires 1 <= |ss|
    ensures ObjectSpelled(json, ss, 1)
  {
    SectionStepText(json, ss, 1);
    var tail := [HeaderFrag(ss, 1)] + BodyFrags(json, ss[0]);
    ConcatEmpty();
    assert ObjectFragsUpTo(json, ss, 0) == [] && CloseBefore(ss, 1) == [];
    assert Concat(ObjectFragsUpTo(json, ss, 1)) == Concat(tail);
    TakeOne(SectionTexts(json, ss));
    assert JoinWith(SectionTexts(json, ss)[..1], ",") == SectionText(json, ss[0]);
  }

  lemma ObjectSpelledNext<V>(json: V -> string, ss: seq<Section<V>>, n: nat)
    requires 2 <= n <= |ss| && ObjectSpelled(json, ss, n - 1)
    ensures ObjectSpelled(json, ss, n)
  {
    SectionStepText(json, ss, n);
    var texts := SectionTexts(json, ss);
    var x := SectionText(json, ss[n - 1]);
    assert Concat(CloseBefore(ss, n)) == if ss[n - 2].RowSection? then "]" else "" by {
      if ss[n - 2].RowSection? { ConcatSingle("]"); } else { ConcatEmpty(); }
    }
    TakeSnoc(texts, n);
    JoinWithSnoc(texts[..n - 1], ",", x);
    SpellStep(Concat(ObjectFragsUpTo(json, ss, n - 1)), Concat(CloseBefore(ss, n)),
      Concat([HeaderFrag(ss, n)] + BodyFrags(json, ss[n - 1])),
      if ss[n - 1].RowSection? then "]" else "", JoinWith(texts[..n - 1], ","), x);
  }

  /** One more section's text, in the string algebra alone. */
  lemma SpellStep(a: string, c: string, t: string, close: string, j: string, x: string)
    requires a + c == "{" + j
    requires t + close == "," + x
    ensures a + c + t + close == "{" + (j + "," + x)
  {
    calc {
      a + c + t + close;
      == { AppendAssoc(a + c, t, close); }
      ("{" + j) + ("," + x);
      == { AppendAssoc("{" + j, ",", x); AppendAssoc("{", j, ","); AppendAssoc("{", j + ",", x); }
      "{" + (j + "," + x);
    }
  }

  /** An object's fragments, followed by the `]` of a last array, spell out `{` and the sections joined by commas. */
  lemma {:induction false} ObjectFragsText<V>(json: V -> string, ss: seq<Section<V>>, n: nat)
    requires 1 <= n <= |ss|
    ensures ObjectSpelled(json, ss, n)
  {
    if n == 1 {
      ObjectSpelledFirst(json, ss);
    } else {
      ObjectFragsText(json, ss, n - 1);
      ObjectSpelledNext(json, ss, n);
    }
  }

  /** Streaming a document and then closing it writes exactly the document's rendered text. */
  lemma ResponseIsRendered<V>(json: V -> string, doc: Doc<V>)
    requires WellShaped(doc)
    ensures Concat(Frags(json, doc) + ClosingFrags(doc)) == Render(json, doc)
  {
    ConcatAppend(Frags(json, doc), ClosingFrags(doc));
    match doc
    case Blank =>
      assert ClosingFrags(doc) == ["[]"];
      ConcatSingle("[]");
      ConcatEmpty();
    case RowArray(rows) =>
      ConcatAppend(["["], RowFrags(json, rows));
      ConcatSingle("[");
      ConcatSingle("]");
      RowFragsArray(json, rows);
      assert ClosingFrags(doc) == ["]"];
      assert Frags(json, doc) == ["["] + RowFrags(json, rows);
    case Object(ss) =>
      ObjectIsRendered(json, ss);
  }

  lemma ObjectIsRendered<V>(json: V -> string, ss: seq<Section<V>>)
    requires |ss| > 0
    ensures Concat(Frags(json, Object(ss))) + Concat(ClosingFrags(Object(ss))) == Render(json, Object(ss))
  {
    ObjectFragsText(json, ss, |ss|);
    TakeAll(SectionTexts(json, ss));
    ObjectClosingText(ss);
    AppendAssoc(Concat(Frags(json, Object(ss))), if ss[|ss| - 1].RowSection? then "]" else "", "}");
  }

  lemma ObjectClosingText<V>(ss: seq<Section<V>>)
    requires |ss| > 0
    ensures Concat(ClosingFrags(Object(ss))) == (if ss[|ss| - 1].RowSection? then "]" else "") + "}"
  {
    ConcatSingle("}");
    if ss[|ss| - 1].RowSection? {
      ConcatAppend(["]"], ["}"]);
      ConcatSingle("]");
    } else {
      assert ClosingFrags(Object(ss)) == ["}"];
    }
  }
}
