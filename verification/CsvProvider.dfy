/** The watchlist provider that is loaded from a CSV file.

    `normalize`, `isValid` and `trim` stand for the address helpers and for `String.trim`, which are
    not part of this model. */
module CsvProvider {
  import opened Csv
  import opened Lists

  const CSV_SOURCE := "csv-watchlist-v1"

  datatype Helpers = Helpers(normalize: string -> string, isValid: string -> bool, trim: string -> string)

  /** Whether a row lists the account `a`. */
  predicate NamesAccount(h: Helpers, row: Row, a: string) {
    && row != [] && !(|row| == 1 && h.trim(row[0]) == "")
    && h.normalize(row[0]) == a && h.isValid(a)
  }

  function SourceOf(h: Helpers, row: Row): string {
    if |row| > 1 && h.trim(row[1]) != "" then h.trim(row[1]) else CSV_SOURCE
  }

  /** The sources of the rows that list `a`, in file order. */
  function Mentions(h: Helpers, rows: seq<Row>, a: string): seq<string> {
    if rows == [] then []
    else
      var n := |rows| - 1;
      Mentions(h, rows[..n], a) + if NamesAccount(h, rows[n], a) then [SourceOf(h, rows[n])] else []
  }

  function Join(sources: seq<string>): string {
    if sources == [] then ""
    else if |sources| == 1 then sources[0]
    else sources[0] + "," + Join(sources[1..])
  }

  /** What follows the header. */
  function Body(content: string): seq<Row> {
    var rows := Parse(content);
    if rows == [] then [] else rows[1..]
  }

  lemma {:induction false} ReadRowsHaveFields(content: string)
    ensures NonEmptyRows(Parse(content))
  {
    ConsumeMakesNonEmptyRows(StripBom(content), START);
  }

  /** Each source that lists `a`, once, in order of first mention. */
  function Sources(h: Helpers, rows: seq<Row>, a: string): seq<string> {
    Distinct(Mentions(h, rows, a))
  }

  lemma {:induction false} RowAdds(h: Helpers, rows: seq<Row>, n: nat, a: string)
    requires n < |rows|
    ensures var before, source := Sources(h, rows[..n], a), SourceOf(h, rows[n]);
            Sources(h, rows[..n + 1], a)
            == if NamesAccount(h, rows[n], a) && source !in before then before + [source] else before
  {
    assert rows[..n + 1][..n] == rows[..n];
    DistinctFacts(Mentions(h, rows[..n], a));
    if NamesAccount(h, rows[n], a) {
      DistinctAppend(Mentions(h, rows[..n], a), SourceOf(h, rows[n]));
    } else {
      assert Mentions(h, rows[..n], a) + [] == Mentions(h, rows[..n], a);
    }
  }

  lemma {:induction false} SourcesIffListed(h: Helpers, rows: seq<Row>, a: string)
    ensures Sources(h, rows, a) != [] <==> exists k :: 0 <= k < |rows| && NamesAccount(h, rows[k], a)
  {
    if rows != [] {
      var n := |rows| - 1;
      SourcesIffListed(h, rows[..n], a);
      RowAdds(h, rows, n, a);
      assert rows[..n + 1] == rows;
      assert forall k :: 0 <= k < n ==> rows[..n][k] == rows[k];
    }
  }

  /** The sources of an account are those in the second fields of its rows, without white space around them,
      and the default one for a row without. */
  lemma {:induction false} SourcesAreListed(h: Helpers, rows: seq<Row>, a: string, source: string)
    ensures source in Sources(h, rows, a) <==> exists k :: 0 <= k < |rows| && Brings(h, rows[k], a, source)
  {
    if rows != [] {
      var n := |rows| - 1;
      SourcesAreListed(h, rows[..n], a, source);
      RowAdds(h, rows, n, a);
      hide Sources, Brings;
      assert rows[..n + 1] == rows;
      assert forall k :: 0 <= k < n ==> rows[..n][k] == rows[k];
      RowLists(h, rows[n], a, source);
    }
  }

  predicate Brings(h: Helpers, row: Row, a: string, source: string) {
    NamesAccount(h, row, a) && source == if |row| > 1 && h.trim(row[1]) != "" then h.trim(row[1]) else CSV_SOURCE
  }

  lemma {:induction false} RowLists(h: Helpers, row: Row, a: string, source: string)
    ensures Brings(h, row, a, source) <==> NamesAccount(h, row, a) && source == SourceOf(h, row)
  {
  }

  /** The account `a` is named by this row alone. */
  ghost predicate OnlyRow(h: Helpers, rows: seq<Row>, a: string, k: nat) {
    k < |rows| && NamesAccount(h, rows[k], a) && forall j :: 0 <= j < |rows| && NamesAccount(h, rows[j], a) ==> j == k
  }

  /** An account named by one row has the source of that row. */
  lemma {:induction false} OneSource(h: Helpers, rows: seq<Row>, a: string, k: nat)
    requires OnlyRow(h, rows, a, k)
    ensures Sources(h, rows, a) == [SourceOf(h, rows[k])]
  {
    var s, x := Sources(h, rows, a), SourceOf(h, rows[k]);
    DistinctFacts(Mentions(h, rows, a));
    hide NamesAccount, Sources, SourceOf, Brings;
    RowLists(h, rows[k], a, x);
    SourcesAreListed(h, rows, a, x);
    forall i | 0 <= i < |s| ensures s[i] == x {
      SourcesAreListed(h, rows, a, s[i]);
      var j :| 0 <= j < |rows| && Brings(h, rows[j], a, s[i]);
      RowLists(h, rows[j], a, s[i]);
    }
    OneMember(s, x);
  }

  lemma {:induction false} OneMember(s: seq<string>, x: string)
    requires NoRepeats(s) && x in s && forall i :: 0 <= i < |s| ==> s[i] == x
    ensures s == [x]
  {
    assert s[0] == x == s[|s| - 1];
  }

  lemma {:induction false} SoleSource(h: Helpers, rows: seq<Row>, a: string)
    ensures forall k: nat :: OnlyRow(h, rows, a, k) ==> k < |rows| && Sources(h, rows, a) == [SourceOf(h, rows[k])]
  {
    forall k: nat | OnlyRow(h, rows, a, k) ensures k < |rows| && Sources(h, rows, a) == [SourceOf(h, rows[k])] {
      OneSource(h, rows, a, k);
    }
  }

  /** Several sources are written one behind the other, with commas in between. */
  lemma {:induction false} JoinedSources(sources: seq<string>, more: string)
    ensures Join([more]) == more
    ensures sources != [] ==> Join(sources + [more]) == Join(sources) + "," + more
  {
    if |sources| == 1 {
      assert (sources + [more])[1..] == [more];
    } else if |sources| > 1 {
      assert (sources + [more])[1..] == sources[1..] + [more];
      JoinedSources(sources[1..], more);
    }
  }

  /** The header is skipped: of a printed table the rows below the first are what is loaded. */
  lemma {:induction false} HeaderIsSkipped(lines: seq<Line>)
    requires AllPrintable(lines) && NoSplitCrlf(lines) && !LooksMarked(lines) && lines != []
    ensures Body(Print(lines)) == Table(lines)[1..]
  {
    hide Parse, Print;
    RoundTripExact(lines);
  }

  class CsvSanctionsProvider {
    const h: Helpers
    var flaggedAddresses: map<string, seq<string>>
    ghost var rows: seq<Row>

    /** Each account maps to the sources of all its rows, each source once. */
    ghost predicate Valid()
      reads this
    {
      forall a ::
        && (a in flaggedAddresses <==> Sources(h, rows, a) != [])
        && (a in flaggedAddresses ==> flaggedAddresses[a] == Sources(h, rows, a))
    }

    constructor (h: Helpers, content: string)
      ensures Valid() && this.h == h && rows == Body(content)
    {
      this.h := h;
      flaggedAddresses := map[];
      rows := [];
      new;
      LoadCsv(content);
    }

    method LoadCsv(content: string)
      requires Valid() && rows == []
      modifies this
      ensures Valid() && rows == Body(content)
    {
      hide Sources, Parse;
      var table := ParseCsv(content);
      ReadRowsHaveFields(content);
      if |table| == 0 {
        return;
      }
      ghost var body := table[1..];
      assert body[..0] == [];
      for i := 1 to |table|
        invariant Valid() && rows == body[..i - 1]
        modifies `flaggedAddresses, `rows
      {
        var fields := table[i];
        rows := body[..i];
        assert body[i - 1] == fields;
        forall a ensures var before, source := Sources(h, body[..i - 1], a), SourceOf(h, fields);
                         Sources(h, body[..i], a)
                         == if NamesAccount(h, fields, a) && source !in before then before + [source] else before
        {
          RowAdds(h, body, i - 1, a);
        }
        if |fields| == 1 && h.trim(fields[0]) == "" {
          continue;
        }
        var address := h.normalize(fields[0]);
        if !h.isValid(address) {
          continue;
        }
        var source := SourceOf(h, fields);
        if address !in flaggedAddresses {
          flaggedAddresses := flaggedAddresses[address := [source]];
        } else if source !in flaggedAddresses[address] {
          flaggedAddresses := flaggedAddresses[address := flaggedAddresses[address] + [source]];
        }
      }
      assert body[..|body|] == body;
    }

    /** An account is flagged exactly if some row lists it, in whatever form it is asked for. */
    method CheckAddress(address: string) returns (flagged: bool, source: string)
      requires Valid()
      ensures flagged <==> exists k :: 0 <= k < |rows| && NamesAccount(h, rows[k], h.normalize(address))
      ensures flagged <==> exists k :: 0 <= k < |rows| && rows[k] != [] &&
                             !(|rows[k]| == 1 && h.trim(rows[k][0]) == "") &&
                             h.normalize(rows[k][0]) == h.normalize(address) && h.isValid(h.normalize(address))
      ensures forall k: nat :: OnlyRow(h, rows, h.normalize(address), k) ==>
        source == if |rows[k]| > 1 && h.trim(rows[k][1]) != "" then h.trim(rows[k][1]) else "csv-watchlist-v1"
      ensures source == if flagged then Join(Sources(h, rows, h.normalize(address))) else CSV_SOURCE
    {
      var a := h.normalize(address);
      SourcesIffListed(h, rows, a);
      SoleSource(h, rows, a);
      if a in flaggedAddresses && |flaggedAddresses[a]| > 0 {
        return true, Join(flaggedAddresses[a]);
      }
      return false, CSV_SOURCE;
    }
  }
}
