/**
 * `Responder`: a streaming JSON writer over an HTTP response.
 *
 * Callers either write rows only, producing `[r1,r2,...]`, or add named
 * sections, each holding one value or an array of rows, producing
 * `{"a": v,"b": [r1,r2]}`. The six flags of the source drive what is
 * written; the ghost field `doc` is the document written so far, and
 * `Valid()` ties the flags and every fragment written to it: before `End`
 * the response holds `Frags(json, doc)`, afterwards also `ClosingFrags(doc)`,
 * whose text is `Render(json, doc)`.
 */
module Responder {
  import opened Wrappers
  import opened ResponseText

  const SectionInArray := "Cannot add section to an array"
  const RowsAfterValue := "Cannot add rows after a value section without a new section header"

  /** How `addSection` returns: normally, or by throwing an error with a message. */
  datatype Outcome = Returned | Threw(message: string)

  /**
   * The promise `write` returns: already resolved, the pending wait for the
   * stream's `drain` event (numbered in the order the waits were created),
   * rejected because the responder has ended, or a thrown error.
   */
  datatype WriteReply = Resolved | Pending(wait: nat) | Rejected | Failed(message: string)

  /** The section `addSection` starts: a value section, or a row section when the value is undefined. */
  function SectionOf<V>(name: string, value: Option<V>): Section<V>
  {
    if value.Some? then ValueSection(name, value.value) else RowSection(name, [])
  }

  class Responder<V> {
    /** `JSON.stringify`. */
    const json: V -> string
    /** The fragments written to the response, in order. */
    var output: seq<string>
    /** Whether `response.end` has been called. */
    var closed: bool

    var ended: bool
    var isArray: bool
    var doneFirstSection: bool
    var doneFirstRow: bool
    var inSection: bool
    var awaitingDrain: bool
    /** How many drain waits have been created; the newest is the one `write` hands out. */
    var drainWaits: nat

    /** The document written so far. */
    ghost var doc: Doc<V>

    ghost predicate Valid()
      reads this
    {
      WellShaped(doc)
      && isArray == doc.RowArray?
      && doneFirstSection == !doc.Blank?
      && inSection == RowsOpen(doc)
      && doneFirstRow == (|OpenRows(doc)| > 0)
      && (awaitingDrain ==> drainWaits > 0)
      && closed == ended
      && output == if ended then Frags(json, doc) + ClosingFrags(doc) else Frags(json, doc)
    }

    /** A responder over a fresh response; `inSection` starts out undefined, which reads as false. */
    constructor (json: V -> string)
      ensures Valid()
      ensures this.json == json && output == [] && !closed && doc == Blank
      ensures !ended && !isArray && !doneFirstSection && !doneFirstRow && !inSection
      ensures !awaitingDrain && drainWaits == 0
    {
      this.json := json;
      output := [];
      closed := false;
      ended, isArray, doneFirstSection, doneFirstRow, inSection := false, false, false, false, false;
      awaitingDrain := false;
      drainWaits := 0;
      doc := Blank;
    }

    /**
     * Adds a section named `name` holding `value`, or an array of rows when
     * `value` is undefined (None). Throws on a responder that is writing a
     * bare array; does nothing once ended.
     */
    method AddSection(name: string, value: Option<V>) returns (r: Outcome)
      requires Valid()
      modifies this
      ensures Valid()
      ensures old(ended) ==> r == Returned && unchanged(this)
      ensures !old(ended) && old(isArray) ==> r == Threw(SectionInArray) && unchanged(this)
      ensures !old(ended) && !old(isArray) ==> r == Returned
      ensures !old(ended) && !old(isArray) ==>
        output == old(output) + NewSectionFrags(json, old(inSection), !old(doneFirstSection), SectionOf(name, value))
      ensures !old(ended) && !old(isArray) ==>
        inSection == value.None? && doneFirstSection && !doneFirstRow
      ensures !old(ended) && !old(isArray) ==>
        ended == old(ended) && isArray == old(isArray) && closed == old(closed)
        && awaitingDrain == old(awaitingDrain) && drainWaits == old(drainWaits)
      ensures !old(ended) && !old(isArray) ==> doc == WithSection(old(doc), SectionOf(name, value))
    {
      if ended {
        return Returned;
      }
      if isArray {
        return Threw(SectionInArray);
      }
      StartSection(SectionOf(name, value));
      r := Returned;
    }

    /** The part of `addSection` past its guards: writes the section's opening and records it. */
    method StartSection(s: Section<V>)
      requires Valid() && !ended && !isArray
      requires s.ValueSection? || s.rows == []
      modifies this
      ensures Valid()
      ensures output == old(output) + NewSectionFrags(json, old(inSection), !old(doneFirstSection), s)
      ensures inSection == s.RowSection? && doneFirstSection && !doneFirstRow
      ensures ended == old(ended) && isArray == old(isArray) && closed == old(closed)
      ensures awaitingDrain == old(awaitingDrain) && drainWaits == old(drainWaits)
      ensures doc == WithSection(old(doc), s)
    {
      FragsWithSection(json, doc, s);
      output := output + NewSectionFrags(json, inSection, !doneFirstSection, s);
      doc := WithSection(doc, s);
      inSection := s.RowSection?;
      doneFirstSection := true;
      doneFirstRow := false;
    }

    /**
     * Writes one row. The first row written before any section starts a bare
     * array. `accepted` is what the stream's `write` answered for the row's
     * text: when it refused, the caller must wait for `drain`, and a wait is
     * created only if none is pending.
     */
    method Write(row: V, accepted: bool) returns (r: WriteReply)
      requires Valid()
      modifies this
      ensures Valid()
      ensures old(ended) ==> r == Rejected && unchanged(this)
      ensures !old(ended) && old(doneFirstSection) && !old(inSection) ==>
        r == Failed(RowsAfterValue) && unchanged(this)
      ensures !old(ended) && (!old(doneFirstSection) || old(inSection)) ==>
        output == old(output) + NewRowFrags(json, !old(doneFirstSection), old(doneFirstRow), row)
      ensures !old(ended) && (!old(doneFirstSection) || old(inSection)) ==>
        isArray == (old(isArray) || !old(doneFirstSection))
        && doneFirstSection && inSection && doneFirstRow
        && ended == old(ended) && closed == old(closed)
      ensures !old(ended) && (!old(doneFirstSection) || old(inSection)) ==>
        doc == WithRow(old(doc), row)
      ensures !old(ended) && (!old(doneFirstSection) || old(inSection)) && accepted ==>
        r == Resolved && awaitingDrain == old(awaitingDrain) && drainWaits == old(drainWaits)
      ensures !old(ended) && (!old(doneFirstSection) || old(inSection)) && !accepted ==>
        r == Pending(drainWaits) && awaitingDrain
      ensures !old(ended) && (!old(doneFirstSection) || old(inSection)) && !accepted ==>
        drainWaits == if old(awaitingDrain) then old(drainWaits) else old(drainWaits) + 1
    {
      if ended {
        return Rejected;
      }
      if doneFirstSection && !inSection {
        return Failed(RowsAfterValue);
      }
      AppendRow(row);
      if accepted {
        return Resolved;
      }
      if !awaitingDrain {
        awaitingDrain := true;
        drainWaits := drainWaits + 1;
      }
      r := Pending(drainWaits);
    }

    /** The part of `write` that writes: the row's fragments, recorded in the document. */
    method AppendRow(row: V)
      requires Valid() && !ended && (!doneFirstSection || inSection)
      modifies this
      ensures Valid()
      ensures output == old(output) + NewRowFrags(json, !old(doneFirstSection), old(doneFirstRow), row)
      ensures isArray == (old(isArray) || !old(doneFirstSection))
      ensures doneFirstSection && inSection && doneFirstRow
      ensures ended == old(ended) && closed == old(closed)
      ensures awaitingDrain == old(awaitingDrain) && drainWaits == old(drainWaits)
      ensures doc == WithRow(old(doc), row)
    {
      FragsWithRow(json, doc, row);
      output := output + NewRowFrags(json, !doneFirstSection, doneFirstRow, row);
      doc := WithRow(doc, row);
      if !doneFirstSection {
        isArray := true;
        doneFirstSection := true;
        inSection := true;
      }
      doneFirstRow := true;
    }

    /** The stream's `drain` event: the pending wait, if any, is over. */
    method Drain()
      requires Valid()
      modifies this`awaitingDrain
      ensures Valid() && !awaitingDrain
    {
      awaitingDrain := false;
    }

    /**
     * Ends the response: closes an open array, then closes the object, or
     * writes `[]` when nothing was written. Only the first call writes.
     */
    method End()
      requires Valid()
      modifies this
      ensures Valid() && ended && closed
      ensures Text() == Render(json, doc)
      ensures old(ended) ==> unchanged(this)
      ensures !old(ended) ==> output == old(output) + EndFrags(old(inSection), old(isArray), !old(doneFirstSection))
      ensures !old(ended) ==>
        doc == old(doc)
        && isArray == old(isArray) && doneFirstSection == old(doneFirstSection)
        && doneFirstRow == old(doneFirstRow) && inSection == old(inSection)
        && awaitingDrain == old(awaitingDrain) && drainWaits == old(drainWaits)
    {
      if !ended {
        output := output + EndFrags(inSection, isArray, !doneFirstSection);
        closed := true;
      }
      ended := true;
      ResponseIsRendered(json, doc);
    }

    /** The complete text written to the response. */
    function Text(): string
      reads this
    {
      Concat(output)
    }
  }

  /**
   * The array shape: writes every row, whatever the stream answers, then
   * ends. The response is the JSON array of the rows, `[]` when there are none.
   */
  method RespondRows<V>(json: V -> string, rows: seq<V>, accepted: seq<bool>) returns (text: string)
    requires |accepted| == |rows|
    ensures text == RowsArray(json, rows)
  {
    var r := new Responder(json);
    for i := 0 to |rows|
      invariant r.Valid() && r.json == json && !r.ended
      invariant r.doc == if i == 0 then Blank else RowArray(rows[..i])
    {
      TakeSnoc(rows, i + 1);
      var reply := r.Write(rows[i], accepted[i]);
    }
    r.End();
    TakeAll(rows);
    text := r.Text();
  }

  /** Adds a row section and writes its rows, each accepted by the stream. */
  method AddRowSection<V>(r: Responder<V>, name: string, rows: seq<V>)
    requires r.Valid() && !r.ended && !r.isArray
    modifies r
    ensures r.Valid() && !r.ended && !r.isArray
    ensures r.doc == WithSection(old(r.doc), RowSection(name, rows))
  {
    ghost var before := r.doc;
    var outcome := r.AddSection(name, None);
    for j := 0 to |rows|
      invariant r.Valid() && !r.ended && !r.isArray
      invariant r.doc == WithSection(before, RowSection(name, rows[..j]))
    {
      TakeSnoc(rows, j + 1);
      WithRowInSection(before, name, rows[..j], rows[j]);
      var reply := r.Write(rows[j], true);
    }
    TakeAll(rows);
  }

  /**
   * The object shape: adds each section in turn, writing the rows of a row
   * section after its header, then ends. The response is the rendered
   * object, or `[]` when there are no sections.
   */
  method RespondObject<V>(json: V -> string, sections: seq<Section<V>>) returns (text: string)
    ensures text == Render(json, if sections == [] then Blank else Object(sections))
  {
    var r := new Responder(json);
    for i := 0 to |sections|
      invariant r.Valid() && r.json == json && !r.ended && !r.isArray
      invariant r.doc == if i == 0 then Blank else Object(sections[..i])
    {
      var s := sections[i];
      TakeSnoc(sections, i + 1);
      match s
      case ValueSection(name, v) =>
        var outcome := r.AddSection(name, Some(v));
      case RowSection(name, rows) =>
        AddRowSection(r, name, rows);
    }
    r.End();
    TakeAll(sections);
    text := r.Text();
  }
}
