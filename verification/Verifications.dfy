/** The `citation_verifications` table, which the quote check and the claim judge both append to. */
module Verifications {
  import opened Options

  type Time = int

  datatype CheckKind = Quote | Llm

  datatype Verdict =
    | VerifiedExact | VerifiedNormalized | PartiallyFound | NotFound
    | ArchiveOnly | PageChanged | Unverifiable
    | LlmSupported | LlmPartial | LlmNotSupported | LlmContradicted

  /** Where a quote was found in a document. */
  datatype Match = Match(text: string, start: Option<int>, similarity: Option<real>)

  /** What the judge said, and what its reply cost. */
  datatype Opinion = Opinion(reason: Option<string>, quote: Option<string>, quoteFound: Option<bool>, needsReview: bool,
                             cost: Option<real>)

  datatype Row = Row(
    citation: int,
    kind: CheckKind,
    document: int,
    claim: Option<string>,
    verdict: Verdict,
    reason: Option<string>,
    found: Option<Match>,
    opinion: Option<Opinion>,
    createdAt: Time)

  predicate IsOf(r: Row, kind: CheckKind, citation: int) {
    r.kind == kind && r.citation == citation
  }

  /** The rows of one check of one citation, oldest first. */
  function RowsOf(rows: seq<Row>, kind: CheckKind, citation: int): seq<Row> {
    if rows == [] then []
    else
      RowsOf(rows[..|rows| - 1], kind, citation)
      + if IsOf(rows[|rows| - 1], kind, citation) then [rows[|rows| - 1]] else []
  }

  function Since(rows: seq<Row>, since: Time): seq<Row> {
    if rows == [] then []
    else Since(rows[..|rows| - 1], since) + if rows[|rows| - 1].createdAt >= since then [rows[|rows| - 1]] else []
  }

  /** `has_verification_since`. */
  predicate HasSince(rows: seq<Row>, kind: CheckKind, citation: int, since: Time) {
    exists k :: 0 <= k < |rows| && IsOf(rows[k], kind, citation) && rows[k].createdAt >= since
  }

  lemma {:induction false} RowsOfAppends(a: seq<Row>, b: seq<Row>, kind: CheckKind, citation: int)
    ensures RowsOf(a + b, kind, citation) == RowsOf(a, kind, citation) + RowsOf(b, kind, citation)
  {
    if b == [] {
      assert a + b == a;
    } else {
      var front, last := b[..|b| - 1], b[|b| - 1];
      RowsOfAppends(a, front, kind, citation);
      assert (a + b)[..|a + b| - 1] == a + front && (a + b)[|a + b| - 1] == last;
    }
  }

  lemma {:induction false} SinceAppends(a: seq<Row>, b: seq<Row>, since: Time)
    ensures Since(a + b, since) == Since(a, since) + Since(b, since)
  {
    if b == [] {
      assert a + b == a;
    } else {
      var front, last := b[..|b| - 1], b[|b| - 1];
      SinceAppends(a, front, since);
      assert (a + b)[..|a + b| - 1] == a + front && (a + b)[|a + b| - 1] == last;
    }
  }

  /** What the lookup finds is decided by the citation's own rows. */
  lemma {:induction false} HasSinceIff(rows: seq<Row>, kind: CheckKind, citation: int, since: Time)
    ensures HasSince(rows, kind, citation, since) <==> Since(RowsOf(rows, kind, citation), since) != []
  {
    if rows != [] {
      var front, last := rows[..|rows| - 1], rows[|rows| - 1];
      HasSinceIff(front, kind, citation, since);
      SinceAppends(RowsOf(front, kind, citation), if IsOf(last, kind, citation) then [last] else [], since);
      assert HasSince(rows, kind, citation, since)
        <==> HasSince(front, kind, citation, since) || (IsOf(last, kind, citation) && last.createdAt >= since) by {
        if HasSince(front, kind, citation, since) {
          var k :| 0 <= k < |front| && IsOf(front[k], kind, citation) && front[k].createdAt >= since;
          assert rows[k] == front[k];
        }
      }
    }
  }

  lemma {:induction false} NoneOfOthers(rows: seq<Row>, kind: CheckKind, citation: int)
    requires forall r :: r in rows ==> !IsOf(r, kind, citation)
    ensures RowsOf(rows, kind, citation) == []
  {
    if rows != [] { NoneOfOthers(rows[..|rows| - 1], kind, citation); }
  }

  /** Only the table's end grows. */
  class VerificationTable {
    var rows: seq<Row>

    constructor ()
      ensures rows == []
    {
      rows := [];
    }

    /** `db.add(row); db.commit()`. */
    method Append(row: Row)
      modifies this
      ensures rows == old(rows) + [row]
    {
      rows := rows + [row];
    }
  }
}
