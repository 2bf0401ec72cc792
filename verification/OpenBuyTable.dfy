/**
 The strict section-(2a) table (`_extract_strict_open_buy_rows` in
 mmi/portfolio_projection.py), over the lines of the snapshot text.
 */
module OpenBuyTable {
  import opened Outcomes
  import opened SourceText
  import opened Traversal

  /** The exact marker and header lines. */
  datatype Format = Format(sectionStart: string, sectionEnd: string, header: string)

  const STRICT_FORMAT: Format := Format(
    "(2a) existing_buy_open_orders_summary\U{FF08}optional, ticker-level summary; "
    + "buy-side existing open orders SSOT\U{FF09}",
    "(2b) sell_open_orders\U{FF08}optional, lot-aware open sell orders summary\U{FF09}",
    "TICKER | budget | compiled_open_order_notional(optional) | residual_cash_not_allocated(optional) | template_id"
    + " | anchor_baseline_last_close | anchor_price_asof | last_refresh_date_et(optional)"
    + " | highest_live_limit(optional) | lowest_live_limit(optional) | live_step_count(optional)"
    + " | live_order_steps_summary(optional) | live_order_qtys_summary(optional)")

  const COLUMN_COUNT: nat := 13

  type Lines = seq<string>

  type Fields = seq<string>

  // ----- finding the section and its header -----

  /** Indices from k on of the lines that satisfy p, in order. */
  function Where(lines: Lines, p: string -> bool, k: nat): (r: seq<nat>)
    requires k <= |lines|
    ensures forall j :: 0 <= j < |r| ==> k <= r[j] < |lines| && p(lines[r[j]])
    ensures forall i :: k <= i < |lines| && p(lines[i]) ==> i in r
    decreases |lines| - k
  {
    if k == |lines| then [] else (if p(lines[k]) then [k] else []) + Where(lines, p, k + 1)
  }

  function AllWhere(lines: Lines, p: string -> bool): (r: seq<nat>)
    ensures forall j :: 0 <= j < |r| ==> r[j] < |lines| && p(lines[r[j]])
    ensures forall i :: 0 <= i < |lines| && p(lines[i]) ==> i in r
  {
    Where(lines, p, 0)
  }

  /** The lines between the one exact start marker and the one exact end marker. */
  function Section(f: Format, lines: Lines): Option<Lines> {
    var exactStarts := AllWhere(lines, (l: string) => l == f.sectionStart);
    var anyStarts := AllWhere(lines, (l: string) => StartsWith(l, "(2a)"));
    var exactEnds := AllWhere(lines, (l: string) => l == f.sectionEnd);
    var anyEnds := AllWhere(lines, (l: string) => StartsWith(l, "(2b)"));
    if |exactStarts| != 1 || exactStarts != anyStarts || |exactEnds| != 1 || exactEnds != anyEnds
       || exactEnds[0] <= exactStarts[0]
    then None
    else Some(lines[exactStarts[0] + 1..exactEnds[0]])
  }

  predicate LooksLikeHeader(l: string) {
    StartsWith(Strip(l), "TICKER") && '|' in l
  }

  predicate AnyDataLike(lines: Lines) {
    exists i :: 0 <= i < |lines| && IsDataLike(lines[i])
  }

  /** Index of the one header of a section, with nothing data-like before it. */
  function HeaderIndex(f: Format, section: Lines): (h: Option<nat>)
    ensures h.Some? ==> h.value < |section| && section[h.value] == f.header && !AnyDataLike(section[..h.value])
  {
    var headers := AllWhere(section, (l: string) => l == f.header);
    var similar := AllWhere(section, LooksLikeHeader);
    if |headers| != 1 || headers != similar then None
    else if AnyDataLike(section[..headers[0]]) then None
    else Some(headers[0])
  }

  /** Index of the first data-like line, or the number of lines. */
  function FirstDataLike(lines: Lines): (i: nat)
    ensures i <= |lines| && (i < |lines| ==> IsDataLike(lines[i]))
    ensures forall k :: 0 <= k < i ==> !IsDataLike(lines[k])
  {
    if lines == [] || IsDataLike(lines[0]) then 0
    else
      var i := FirstDataLike(lines[1..]);
      assert forall k :: 0 < k < 1 + i ==> lines[k] == lines[1..][k - 1];
      1 + i
  }

  function StripAll(pieces: seq<string>): (r: seq<string>)
    ensures |r| == |pieces|
  {
    seq(|pieces|, i requires 0 <= i < |pieces| => Strip(pieces[i]))
  }

  function FieldsOf(line: string): Fields {
    StripAll(Split(line, '|'))
  }

  // ----- the rows -----

  /** Rows from line k on: full rows without a gap, then blank lines. */
  function RowsFrom(region: Lines, k: nat, rows: seq<Fields>, ended: bool): Option<seq<Fields>>
    requires k <= |region|
    decreases |region| - k
  {
    if k == |region| then Some(rows)
    else if Strip(region[k]) == "" then RowsFrom(region, k + 1, rows, ended || rows != [])
    else if ended || |FieldsOf(region[k])| != COLUMN_COUNT then None
    else RowsFrom(region, k + 1, rows + [FieldsOf(region[k])], ended)
  }

  /** Rows of everything after the header: they start at the first data-like line. */
  function BodyRows(after: Lines): Option<seq<Fields>> {
    RowsFrom(after[FirstDataLike(after)..], 0, [], false)
  }

  function ExtractedRows(f: Format, lines: Lines): Option<seq<Fields>> {
    match Section(f, lines)
    case None => None
    case Some(section) =>
      match HeaderIndex(f, section)
      case None => None
      case Some(h) => BodyRows(section[h + 1..])
  }

  method ReadRows(region: Lines) returns (r: Option<seq<Fields>>)
    ensures r == RowsFrom(region, 0, [], false)
  {
    var rows: seq<Fields> := [];
    var ended := false;
    for k := 0 to |region|
      invariant RowsFrom(region, 0, [], false) == RowsFrom(region, k, rows, ended)
    {
      var line := region[k];
      if Strip(line) == "" {
        if rows != [] {
          ended := true;
        }
      } else {
        if ended {
          return None;
        }
        var fields := FieldsOf(line);
        if |fields| != COLUMN_COUNT {
          return None;
        }
        rows := rows + [fields];
      }
    }
    return Some(rows);
  }

  method ExtractStrictOpenBuyRows(f: Format, text: string) returns (r: Option<seq<Fields>>)
    ensures r == ExtractedRows(f, SplitLines(text))
  {
    var lines := SplitLines(text);
    var section := Section(f, lines);
    if section.None? {
      return None;
    }
    var header := HeaderIndex(f, section.value);
    if header.None? {
      return None;
    }
    var afterHeader := section.value[header.value + 1..];
    var first := FirstDataLike(afterHeader);
    if first == |afterHeader| {
      assert afterHeader[first..] == [];
      return Some([]);
    }
    r := ReadRows(afterHeader[first..]);
  }

  // ----- nothing data-like is lost -----

  /** The data-like lines, in order. */
  function DataLines(lines: Lines): Lines {
    Kept(lines, IsDataLike)
  }

  function RowsOf(lines: Lines): (rows: seq<Fields>)
    ensures |rows| == |lines|
    ensures forall i :: 0 <= i < |lines| ==> rows[i] == FieldsOf(lines[i])
  {
    seq(|lines|, i requires 0 <= i < |lines| => FieldsOf(lines[i]))
  }

  lemma {:induction false} RowsAreDataLines(region: Lines, k: nat, rows: seq<Fields>, ended: bool)
    requires k <= |region| && RowsFrom(region, k, rows, ended).Some?
    ensures RowsFrom(region, k, rows, ended) == Some(rows + RowsOf(DataLines(region[k..])))
    decreases |region| - k
  {
    if k == |region| {
      assert region[k..] == [];
      assert rows + RowsOf([]) == rows;
    } else {
      var line := region[k];
      DataLikeLines(line);
      DataLinesCons(line, region[k + 1..]);
      assert region[k..] == [line] + region[k + 1..];
      if Strip(line) == "" {
        RowsAreDataLines(region, k + 1, rows, ended || rows != []);
      } else {
        RowsAreDataLines(region, k + 1, rows + [FieldsOf(line)], ended);
        RowsCons(rows, line, DataLines(region[k + 1..]));
      }
    }
  }

  lemma DataLinesCons(line: string, rest: Lines)
    ensures DataLines([line] + rest) == if IsDataLike(line) then [line] + DataLines(rest) else DataLines(rest)
  {
    KeptCons(line, rest, IsDataLike);
  }

  lemma RowsCons(rows: seq<Fields>, line: string, rest: Lines)
    ensures (rows + [FieldsOf(line)]) + RowsOf(rest) == rows + RowsOf([line] + rest)
  {
  }

  lemma BodyRowsAreDataLines(after: Lines)
    requires BodyRows(after).Some?
    ensures BodyRows(after) == Some(RowsOf(DataLines(after)))
    ensures forall i :: 0 <= i < |DataLines(after)| ==> |FieldsOf(DataLines(after)[i])| == COLUMN_COUNT
  {
    var first := FirstDataLike(after);
    var region := after[first..];
    RegionRowsAreDataLines(region);
    assert after == after[..first] + region;
    KeptAfter(after[..first], region, IsDataLike);
  }

  lemma RegionRowsAreDataLines(region: Lines)
    requires RowsFrom(region, 0, [], false).Some?
    ensures RowsFrom(region, 0, [], false) == Some(RowsOf(DataLines(region)))
    ensures forall i :: 0 <= i < |DataLines(region)| ==> |FieldsOf(DataLines(region)[i])| == COLUMN_COUNT
  {
    RowsAreDataLines(region, 0, [], false);
    assert region[0..] == region;
    var rows := RowsOf(DataLines(region));
    assert [] + rows == rows;
    RowsHaveColumns(region, 0, [], false);
    forall i | 0 <= i < |DataLines(region)| ensures |FieldsOf(DataLines(region)[i])| == COLUMN_COUNT {
      assert rows[i] == FieldsOf(DataLines(region)[i]);
    }
  }

  /** The lines of section (2a) that look like data, the header aside. */
  function TableLines(f: Format, lines: Lines): Lines
    requires ExtractedRows(f, lines).Some?
  {
    var section := Section(f, lines).value;
    var h := HeaderIndex(f, section).value;
    DataLines(section[..h] + section[h + 1..])
  }

  /** Every data-like line but the header becomes exactly one row, in order, and nothing else does. */
  lemma NoDataLineLost(f: Format, lines: Lines)
    requires ExtractedRows(f, lines).Some?
    ensures ExtractedRows(f, lines) == Some(RowsOf(TableLines(f, lines)))
    ensures forall i :: 0 <= i < |TableLines(f, lines)| ==> |FieldsOf(TableLines(f, lines)[i])| == COLUMN_COUNT
  {
    var section := Section(f, lines).value;
    var h := HeaderIndex(f, section).value;
    var after := section[h + 1..];
    BodyRowsAreDataLines(after);
    KeptAfter(section[..h], after, IsDataLike);
  }

  lemma {:induction false} RowsHaveColumns(region: Lines, k: nat, rows: seq<Fields>, ended: bool)
    requires k <= |region| && RowsFrom(region, k, rows, ended).Some?
    requires forall i :: 0 <= i < |rows| ==> |rows[i]| == COLUMN_COUNT
    ensures forall i :: 0 <= i < |RowsFrom(region, k, rows, ended).value| ==>
              |RowsFrom(region, k, rows, ended).value[i]| == COLUMN_COUNT
    decreases |region| - k
  {
    if k < |region| {
      if Strip(region[k]) == "" {
        RowsHaveColumns(region, k + 1, rows, ended || rows != []);
      } else {
        RowsHaveColumns(region, k + 1, rows + [FieldsOf(region[k])], ended);
      }
    }
  }
}
