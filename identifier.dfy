/** Year-scoped job identifiers `TRB-<year>-<seq>`
    (`generateIdentificador` in `backend/src/controllers/trabajos.controller.js`). */
module JobIdentifier {
  import opened Common

  const PREFIX := "TRB"

  /** `String(seq).padStart(4, '0')`; NaN renders as "NaN". */
  function SeqText(n: Option<int>): string {
    PadStart(if n.Some? then IntToString(n.value) else "NaN", 4, '0')
  }

  /** The `LIKE 'TRB-<year>-%'` pattern as a prefix. */
  function YearPrefix(year: nat): string {
    PREFIX + "-" + NatToString(year) + "-"
  }

  predicate HasPrefix(s: string, p: string) {
    |p| <= |s| && s[..|p|] == p
  }

  /** The identifier for a known sequence number. */
  function Identifier(year: nat, n: nat): (id: string)
    ensures HasPrefix(id, YearPrefix(year))
  {
    var id := YearPrefix(year) + SeqText(Some(n));
    assert id[..|YearPrefix(year)|] == YearPrefix(year);
    id
  }

  /** `identificador.split('-').pop()`. */
  function LastSegment(id: string): string {
    var parts := Split(id, '-');
    parts[|parts| - 1]
  }

  /** `generateIdentificador()` given the year and the identifier of the
      highest-id row that matches the year's pattern, if any: one past the
      number parsed from its last segment. */
  function Generate(year: nat, last: Option<string>): (id: string)
    ensures last.None? ==> id == Identifier(year, 1)
    ensures last.Some? && ParseInt(LastSegment(last.value)).Some? && ParseInt(LastSegment(last.value)).value >= 0
            ==> id == Identifier(year, ParseInt(LastSegment(last.value)).value + 1)
    ensures HasPrefix(id, YearPrefix(year))
  {
    var n := if last.None? then Some(1)
             else match ParseInt(LastSegment(last.value))
               case None => None
               case Some(v) => Some(v + 1);
    var id := YearPrefix(year) + SeqText(n);
    assert id[..|YearPrefix(year)|] == YearPrefix(year);
    id
  }

  /** An unparsable last segment yields the number NaN, rendered "0NaN". */
  lemma UnparsableLastSegment(year: nat, last: string)
    requires ParseInt(LastSegment(last)).None?
    ensures Generate(year, Some(last)) == YearPrefix(year) + "0NaN"
  {
    assert PadStart("NaN", 4, '0') == "0" + "NaN";
  }

  /** The padded number is its digits after some leading zeros. */
  lemma SeqTextDigits(n: nat)
    ensures AllDigits(SeqText(Some(n))) && '-' !in SeqText(Some(n))
    ensures SeqText(Some(n)) != "" && DigitsValue(SeqText(Some(n))) == n
    ensures |SeqText(Some(n))| >= 4
  {
    var d := NatToString(n);
    var t := SeqText(Some(n));
    if |d| < 4 {
      assert t == Repeat('0', 4 - |d|) + d;
    } else {
      assert t == Repeat('0', 0) + d;
    }
    ZerosValue(if |d| < 4 then 4 - |d| else 0, d);
    NatToStringRoundTrip(n);
  }

  /** The identifier splits into the prefix, the year and the padded number. */
  lemma IdentifierFields(year: nat, n: nat)
    ensures Split(Identifier(year, n), '-') == [PREFIX, NatToString(year), SeqText(Some(n))]
  {
    var y := NatToString(year);
    var t := SeqText(Some(n));
    SeqTextDigits(n);
    NoDashInDigits(y);
    ThreeFields(PREFIX, y, t);
    assert Identifier(year, n) == PREFIX + ['-'] + y + ['-'] + t;
  }

  lemma NoDashInDigits(s: string)
    requires AllDigits(s)
    ensures '-' !in s
  {
    forall i | 0 <= i < |s| ensures s[i] != '-' {
      assert IsDigit(s[i]);
    }
  }

  /** Three dash-free fields joined by dashes split back apart. */
  lemma ThreeFields(a: string, b: string, c: string)
    requires '-' !in a && '-' !in b && '-' !in c
    ensures Split(a + ['-'] + b + ['-'] + c, '-') == [a, b, c]
  {
    SplitNoSeparator(a, '-');
    SplitNoSeparator(b, '-');
    SplitNoSeparator(c, '-');
    SplitAround(b, c, '-');
    assert a + ['-'] + b + ['-'] + c == a + ['-'] + (b + ['-'] + c);
    SplitAround(a, b + ['-'] + c, '-');
  }

  /** Parsing the trailing segment gives back the sequence number. */
  lemma LastSegmentRoundTrip(year: nat, n: nat)
    ensures LastSegment(Identifier(year, n)) == SeqText(Some(n))
    ensures ParseInt(LastSegment(Identifier(year, n))) == Some(n)
  {
    IdentifierFields(year, n);
    SeqTextDigits(n);
    ParseIntOfDigits(SeqText(Some(n)));
  }

  /** Different numbers (or years) give different identifiers. */
  lemma IdentifierInjective(y1: nat, n1: nat, y2: nat, n2: nat)
    requires Identifier(y1, n1) == Identifier(y2, n2)
    ensures y1 == y2 && n1 == n2
  {
    IdentifierFields(y1, n1);
    IdentifierFields(y2, n2);
    LastSegmentRoundTrip(y1, n1);
    LastSegmentRoundTrip(y2, n2);
    NatToStringInjective(y1, y2);
  }

  /** The identifier following `Identifier(year, n)` is number n + 1. */
  lemma GenerateAfter(year: nat, n: nat)
    ensures Generate(year, Some(Identifier(year, n))) == Identifier(year, n + 1)
  {
    LastSegmentRoundTrip(year, n);
  }

  /** The rows the `LIKE` query looks at, in id order: those of the year. */
  function OfYear(ids: seq<string>, year: nat): (r: seq<string>)
    ensures forall x :: x in r <==> x in ids && HasPrefix(x, YearPrefix(year))
  {
    if ids == [] then []
    else OfYear(ids[..|ids| - 1], year)
         + (if HasPrefix(ids[|ids| - 1], YearPrefix(year)) then [ids[|ids| - 1]] else [])
  }

  /** `ORDER BY id DESC LIMIT 1`: the most recent identifier of the year. */
  function LastOfYear(ids: seq<string>, year: nat): (r: Option<string>)
    ensures r.None? <==> OfYear(ids, year) == []
    ensures r.Some? ==> r.value == OfYear(ids, year)[|OfYear(ids, year)| - 1]
  {
    var matching := OfYear(ids, year);
    if matching == [] then None else Some(matching[|matching| - 1])
  }

  /** The year's identifiers, in id order, are numbers 1, 2, ..., k. */
  predicate Sequenced(ids: seq<string>, year: nat) {
    var m := OfYear(ids, year);
    forall i :: 0 <= i < |m| ==> m[i] == Identifier(year, i + 1)
  }

  /** Allocating with the table's own last identifier keeps the numbering
      consecutive, and the new identifier is not in use for the year. */
  lemma GeneratePreservesSequenced(ids: seq<string>, year: nat)
    requires Sequenced(ids, year)
    ensures var id := Generate(year, LastOfYear(ids, year));
            && id == Identifier(year, |OfYear(ids, year)| + 1)
            && id !in ids
            && Sequenced(ids + [id], year)
  {
    NextGenerated(ids, year);
    NextIsFresh(ids, year);
    SequencedAppend(ids, year);
  }

  /** The generated identifier is the year's next number. */
  lemma NextGenerated(ids: seq<string>, year: nat)
    requires Sequenced(ids, year)
    ensures Generate(year, LastOfYear(ids, year)) == Identifier(year, |OfYear(ids, year)| + 1)
  {
    var m := OfYear(ids, year);
    if |m| > 0 {
      assert LastOfYear(ids, year) == Some(Identifier(year, |m|));
      GenerateAfter(year, |m|);
    }
  }

  /** Appending the year's next number keeps the numbering consecutive. */
  lemma SequencedAppend(ids: seq<string>, year: nat)
    requires Sequenced(ids, year)
    ensures Sequenced(ids + [Identifier(year, |OfYear(ids, year)| + 1)], year)
  {
    var m := OfYear(ids, year);
    var id := Identifier(year, |m| + 1);
    AppendOfYear(ids, year, id);
    var m' := OfYear(ids + [id], year);
    assert m' == m + [id];
    forall i | 0 <= i < |m'| ensures m'[i] == Identifier(year, i + 1) {
      if i < |m| { assert m'[i] == m[i]; }
    }
  }

  /** Number k + 1 is not among the year's first k identifiers. */
  lemma NextIsFresh(ids: seq<string>, year: nat)
    requires Sequenced(ids, year)
    ensures Identifier(year, |OfYear(ids, year)| + 1) !in ids
  {
    var m := OfYear(ids, year);
    var x := Identifier(year, |m| + 1);
    forall i | 0 <= i < |m| ensures m[i] != x {
      if m[i] == x {
        IdentifierInjective(year, i + 1, year, |m| + 1);
      }
    }
  }

  lemma AppendOfYear(ids: seq<string>, year: nat, id: string)
    requires HasPrefix(id, YearPrefix(year))
    ensures OfYear(ids + [id], year) == OfYear(ids, year) + [id]
  {
    assert (ids + [id])[..|ids + [id]| - 1] == ids;
  }

  /** Identifiers of another year never disturb the numbering. */
  lemma OtherYearKeepsSequenced(ids: seq<string>, year: nat, other: nat, n: nat)
    requires Sequenced(ids, year) && other != year
    ensures Sequenced(ids + [Identifier(other, n)], year)
  {
    var id := Identifier(other, n);
    assert (ids + [id])[..|ids + [id]| - 1] == ids;
    PrefixFixesYear(year, other, n);
    assert !HasPrefix(id, YearPrefix(year));
    assert OfYear(ids + [id], year) == OfYear(ids, year) + [];
  }

  /** A string with a year's prefix has that year as its second field. */
  lemma SecondField(id: string, year: nat)
    requires HasPrefix(id, YearPrefix(year))
    ensures |Split(id, '-')| >= 2 && Split(id, '-')[1] == NatToString(year)
  {
    var y := NatToString(year);
    var t := id[|YearPrefix(year)|..];
    assert id == PREFIX + ['-'] + (y + ['-'] + t) by {
      assert id == id[..|YearPrefix(year)|] + t;
    }
    NoDashInDigits(y);
    assert '-' !in PREFIX;
    SplitNoSeparator(PREFIX, '-');
    SplitNoSeparator(y, '-');
    SplitAround(y, t, '-');
    SplitAround(PREFIX, y + ['-'] + t, '-');
  }

  /** An identifier carries only its own year's prefix. */
  lemma PrefixFixesYear(year: nat, other: nat, n: nat)
    ensures HasPrefix(Identifier(other, n), YearPrefix(year)) ==> year == other
  {
    if HasPrefix(Identifier(other, n), YearPrefix(year)) {
      SecondField(Identifier(other, n), year);
      IdentifierFields(other, n);
      NatToStringInjective(year, other);
    }
  }
}
