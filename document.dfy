/**
 * src/core/document.py: page-text extraction, the default output path, the line layout of the
 * anonymized text on the output canvas, the per-type statistics, and `process_pdf` composing them
 * with the analyzer and the anonymizer. The PDF reader, the canvas and the filesystem are values:
 * the pages' text is given, the canvas is the list of calls made on it, and whether the input
 * exists is a parameter.
 */
module Document {
  import opened Wrappers
  import opened TextUtil
  import opened RecognizerResults
  import CoreAnalyzer
  import CoreAnonymizer
  import PresidioReplace

  // ---------------------------------------------------------------- extract_text_from_pdf

  /** The total length of the pages' text. */
  function TotalLength(pages: seq<string>): nat
    decreases |pages|
  {
    if pages == [] then 0 else TotalLength(pages[..|pages| - 1]) + |pages[|pages| - 1]|
  }

  /** Each page's text followed by "\n", in page order. */
  function ConcatPages(pages: seq<string>): (r: string)
    decreases |pages|
  {
    if pages == [] then "" else ConcatPages(pages[..|pages| - 1]) + pages[|pages| - 1] + "\n"
  }

  /** `extract_text_from_pdf` over the text `page.extract_text()` returns for each page. */
  method ExtractTextFromPdf(pages: seq<string>) returns (textContent: string)
    ensures textContent == ConcatPages(pages)
    ensures |textContent| == TotalLength(pages) + |pages|
  {
    textContent := "";
    for i := 0 to |pages|
      invariant textContent == ConcatPages(pages[..i])
    {
      assert pages[..i + 1][..i] == pages[..i];
      textContent := textContent + pages[i] + "\n";
    }
    assert pages[..|pages|] == pages;
    ConcatPagesLength(pages);
  }

  /** The extracted text is as long as all pages together plus one newline per page. */
  lemma {:induction false} ConcatPagesLength(pages: seq<string>)
    ensures |ConcatPages(pages)| == TotalLength(pages) + |pages|
    decreases |pages|
  {
    if pages != [] {
      ConcatPagesLength(pages[..|pages| - 1]);
    }
  }

  lemma {:induction false} ConcatPagesSplitThen(pages: seq<string>, u: string)
    requires forall k :: 0 <= k < |pages| ==> '\n' !in pages[k]
    ensures Split(ConcatPages(pages) + u, '\n') == pages + Split(u, '\n')
    decreases |pages|
  {
    if pages != [] {
      var init := pages[..|pages| - 1];
      var last := pages[|pages| - 1];
      var v := last + "\n" + u;
      assert ConcatPages(pages) + u == ConcatPages(init) + v;
      ConcatPagesSplitThen(init, v);
      SplitAtSep(last, u, '\n');
      SplitWithoutSep(last, '\n');
      calc {
        Split(ConcatPages(pages) + u, '\n');
        Split(ConcatPages(init) + v, '\n');
        init + Split(v, '\n');
        { assert v == last + ['\n'] + u; }
        init + (Split(last, '\n') + Split(u, '\n'));
        init + ([last] + Split(u, '\n'));
        { assert init + [last] == pages; }
        pages + Split(u, '\n');
      }
    } else {
      assert ConcatPages(pages) + u == u;
    }
  }

  /** Splitting the extracted text on "\n" gives back the pages, then the empty tail. */
  lemma ConcatPagesSplit(pages: seq<string>)
    requires forall k :: 0 <= k < |pages| ==> '\n' !in pages[k]
    ensures Split(ConcatPages(pages), '\n') == pages + [""]
  {
    ConcatPagesSplitThen(pages, "");
    assert ConcatPages(pages) + "" == ConcatPages(pages);
  }

  // ---------------------------------------------------------------- paths

  /** A `pathlib.Path` as its components; `[]` is `Path(".")`. */
  type FsPath = seq<string>

  /** `path.name`. */
  function Name(p: FsPath): string
  {
    if p == [] then "" else p[|p| - 1]
  }

  /** `path.parent` (the parent of `Path(".")` is itself). */
  function Parent(p: FsPath): FsPath
  {
    if p == [] then [] else p[..|p| - 1]
  }

  /** `str(path)`. */
  function PathString(p: FsPath): string
  {
    if p == [] then "." else Join(p, '/')
  }

  /** `s.rfind(c)`: the last index holding `c`, or -1. */
  function RFind(s: string, c: char): (i: int)
    ensures -1 <= i < |s|
    ensures i >= 0 ==> s[i] == c && forall k :: i < k < |s| ==> s[k] != c
    ensures i == -1 ==> forall k :: 0 <= k < |s| ==> s[k] != c
    decreases |s|
  {
    if s == [] then -1
    else if s[|s| - 1] == c then |s| - 1
    else RFind(s[..|s| - 1], c)
  }

  /** `path.stem`: the name without its last suffix, where a suffix needs a '.' that is neither first nor last. */
  function Stem(name: string): string
  {
    var i := RFind(name, '.');
    if 0 < i < |name| - 1 then name[..i] else name
  }

  /** `path.suffix`. */
  function Suffix(name: string): string
  {
    var i := RFind(name, '.');
    if 0 < i < |name| - 1 then name[i..] else ""
  }

  /** A name is its stem followed by its suffix, and a suffix is '.' plus at least one character with no other '.'. */
  lemma StemSuffix(name: string)
    ensures Stem(name) + Suffix(name) == name
    ensures Suffix(name) == "" || (|Suffix(name)| >= 2 && Suffix(name)[0] == '.' && '.' !in Suffix(name)[1..])
  {
    var i := RFind(name, '.');
    if 0 < i < |name| - 1 {
      assert name[..i] + name[i..] == name;
      assert forall k :: 0 <= k < |name[i..][1..]| ==> name[i..][1..][k] == name[i + 1 + k];
    }
  }

  lemma {:induction false} RFindAppend(s: string, t: string, c: char)
    requires c in t
    ensures RFind(s + t, c) == |s| + RFind(t, c)
    decreases |t|
  {
    var u := s + t;
    assert u[..|u| - 1] == s + t[..|t| - 1];
    if t[|t| - 1] != c {
      assert c in t[..|t| - 1] by {
        var k :| 0 <= k < |t| && t[k] == c;
        assert t[..|t| - 1][k] == c;
      }
      RFindAppend(s, t[..|t| - 1], c);
    }
  }

  /** The file name `f"{stem}_anon.pdf"` the default output path ends in. */
  function AnonName(name: string): string
  {
    Stem(name) + "_anon.pdf"
  }

  /** `input_path.parent / "verwerkt" / f"{input_path.stem}_anon.pdf"`. */
  function DefaultOutputPath(input: FsPath): (out: FsPath)
    ensures Parent(Parent(out)) == Parent(input)
    ensures Name(Parent(out)) == "verwerkt"
    ensures Name(out) == AnonName(Name(input))
  {
    var out := Parent(input) + ["verwerkt", AnonName(Name(input))];
    assert Parent(out) == Parent(input) + ["verwerkt"];
    out
  }

  /** The default output is a ".pdf" whose stem is the input's stem with "_anon" appended. */
  lemma AnonNameParts(name: string)
    ensures Suffix(AnonName(name)) == ".pdf"
    ensures Stem(AnonName(name)) == Stem(name) + "_anon"
  {
    var s := Stem(name);
    RFindAppend(s + "_anon", ".pdf", '.');
    assert RFind(".pdf", '.') == 0;
    var n := AnonName(name);
    assert n == (s + "_anon") + ".pdf";
    assert n[|s| + 5..] == ".pdf";
    assert n[..|s| + 5] == s + "_anon";
  }

  /** The default output path never names the input file itself. */
  lemma DefaultOutputDiffers(input: FsPath)
    ensures DefaultOutputPath(input) != input
  {
    if input != [] {
      assert |Parent(input)| == |input| - 1;
    }
  }

  // ---------------------------------------------------------------- layout

  /** A call made on the reportlab canvas. */
  datatype CanvasOp = DrawString(x: int, y: int, line: string) | ShowPage

  const LeftX: int := 50
  const TopY: int := 750
  const LineStep: int := 12
  const BottomY: int := 50

  /** 750 - 12*59 < 50 <= 750 - 12*58: a page holds 59 lines. */
  const LinesPerPage: nat := 59

  /** The lines `if line.strip()` lets through, in order. */
  function NonBlankLines(lines: seq<string>): (d: seq<string>)
    ensures forall k :: 0 <= k < |d| ==> !IsBlank(d[k])
    decreases |lines|
  {
    if lines == [] then []
    else
      var rest := NonBlankLines(lines[..|lines| - 1]);
      var l := lines[|lines| - 1];
      if IsBlank(l) then rest else rest + [l]
  }

  /** The y of row `k % 59` of a page. */
  function RowY(k: nat): int
  {
    TopY - LineStep * (k % LinesPerPage)
  }

  /** The calls for the k-th drawn line (from 0): draw it on its row, then close the page after row 58. */
  function LineOps(k: nat, line: string): seq<CanvasOp>
  {
    [DrawString(LeftX, RowY(k), line)] + (if k % LinesPerPage == LinesPerPage - 1 then [ShowPage] else [])
  }

  /** Reference schedule for the drawn lines `d`, line after line. */
  function LayoutOps(d: seq<string>): (r: seq<CanvasOp>)
    decreases |d|
  {
    if d == [] then [] else LayoutOps(d[..|d| - 1]) + LineOps(|d| - 1, d[|d| - 1])
  }

  lemma LayoutStep(drawn: seq<string>, line: string)
    ensures LayoutOps(drawn + [line]) == LayoutOps(drawn) + LineOps(|drawn|, line)
  {
    var d := drawn + [line];
    assert d[..|d| - 1] == drawn;
    assert d[|d| - 1] == line;
  }

  /** Rows run from y = 750 down to y = 54. */
  lemma RowBounds(k: nat)
    ensures TopY - LineStep * (LinesPerPage - 1) <= RowY(k) <= TopY
  {
  }

  /** The cursor arithmetic: moving down a row falls below 50 exactly from row 58, and then the next row is the top. */
  lemma CursorStep(k: nat)
    ensures RowY(k) - LineStep < BottomY <==> k % LinesPerPage == LinesPerPage - 1
    ensures k % LinesPerPage == LinesPerPage - 1 ==> RowY(k + 1) == TopY
    ensures k % LinesPerPage != LinesPerPage - 1 ==> RowY(k) - LineStep == RowY(k + 1)
  {
  }

  lemma NonBlankStep(lines: seq<string>, i: nat)
    requires i < |lines|
    ensures NonBlankLines(lines[..i + 1])
            == if IsBlank(lines[i]) then NonBlankLines(lines[..i]) else NonBlankLines(lines[..i]) + [lines[i]]
  {
    assert lines[..i + 1][..i] == lines[..i];
  }

  /** The line loop of `process_pdf`, in its own y-cursor arithmetic. */
  method Layout(anonymizedText: string) returns (ops: seq<CanvasOp>)
    ensures ops == LayoutOps(NonBlankLines(Split(anonymizedText, '\n')))
  {
    var lines := Split(anonymizedText, '\n');
    var y := TopY;
    ops := [];
    ghost var drawn: seq<string> := [];
    var i := 0;
    while i < |lines|
      invariant 0 <= i <= |lines|
      invariant drawn == NonBlankLines(lines[..i])
      invariant ops == LayoutOps(drawn)
      invariant y == RowY(|drawn|)
      invariant BottomY <= y <= TopY
    {
      var line := lines[i];
      NonBlankStep(lines, i);
      i := i + 1;
      if !IsBlank(line) {
        LayoutStep(drawn, line);
        CursorStep(|drawn|);
        RowBounds(|drawn| + 1);
        ops := ops + [DrawString(LeftX, y, line)];
        drawn := drawn + [line];
        y := y - LineStep;
        if y < BottomY {
          ops := ops + [ShowPage];
          y := TopY;
        }
      }
    }
    assert lines[..i] == lines;
  }

  /** The strings drawn, in drawing order. */
  function Drawn(ops: seq<CanvasOp>): seq<string>
    decreases |ops|
  {
    if ops == [] then []
    else
      var rest := Drawn(ops[..|ops| - 1]);
      match ops[|ops| - 1]
      case DrawString(_, _, line) => rest + [line]
      case ShowPage => rest
  }

  /** The number of page breaks. */
  function PageBreaks(ops: seq<CanvasOp>): nat
    decreases |ops|
  {
    if ops == [] then 0
    else PageBreaks(ops[..|ops| - 1]) + (if ops[|ops| - 1].ShowPage? then 1 else 0)
  }

  lemma {:induction false} DrawnAppend(a: seq<CanvasOp>, b: seq<CanvasOp>)
    ensures Drawn(a + b) == Drawn(a) + Drawn(b)
    ensures PageBreaks(a + b) == PageBreaks(a) + PageBreaks(b)
    decreases |b|
  {
    if b == [] {
      assert a + b == a;
    } else {
      var b' := b[..|b| - 1];
      assert (a + b)[..|a + b| - 1] == a + b';
      DrawnAppend(a, b');
    }
  }

  lemma LineOpsFacts(k: nat, line: string)
    ensures Drawn(LineOps(k, line)) == [line]
    ensures PageBreaks(LineOps(k, line)) == if k % LinesPerPage == LinesPerPage - 1 then 1 else 0
  {
    var draw := [DrawString(LeftX, RowY(k), line)];
    assert draw[..0] == [];
    assert Drawn(draw) == [line] && PageBreaks(draw) == 0;
    if k % LinesPerPage == LinesPerPage - 1 {
      var ops := LineOps(k, line);
      assert ops[..|ops| - 1] == draw;
    } else {
      assert LineOps(k, line) == draw;
    }
  }

  /** Exactly the non-blank lines are drawn, each once, in order. */
  lemma {:induction false} LayoutDrawsLines(d: seq<string>)
    ensures Drawn(LayoutOps(d)) == d
    decreases |d|
  {
    if d != [] {
      var k := |d| - 1;
      LayoutDrawsLines(d[..k]);
      DrawnAppend(LayoutOps(d[..k]), LineOps(k, d[k]));
      LineOpsFacts(k, d[k]);
      assert d[..k] + [d[k]] == d;
    }
  }

  /** Every line sits at x = 50 with 54 <= y <= 750. */
  lemma {:induction false} LayoutBounds(d: seq<string>)
    ensures forall op :: op in LayoutOps(d) && op.DrawString? ==>
              op.x == LeftX && TopY - LineStep * (LinesPerPage - 1) <= op.y <= TopY
    decreases |d|
  {
    if d != [] {
      var k := |d| - 1;
      LayoutBounds(d[..k]);
      RowBounds(k);
      assert forall op :: op in LineOps(k, d[k]) ==> op == DrawString(LeftX, RowY(k), d[k]) || op == ShowPage;
    }
  }

  /** A page is closed after every 59th line: |d| / 59 page breaks for |d| lines. */
  lemma {:induction false} LayoutPageBreaks(d: seq<string>)
    ensures PageBreaks(LayoutOps(d)) == |d| / LinesPerPage
    decreases |d|
  {
    if d != [] {
      var k := |d| - 1;
      LayoutPageBreaks(d[..k]);
      DrawnAppend(LayoutOps(d[..k]), LineOps(k, d[k]));
      LineOpsFacts(k, d[k]);
      assert (k + 1) / LinesPerPage == k / LinesPerPage + (if k % LinesPerPage == LinesPerPage - 1 then 1 else 0);
    }
  }

  // ---------------------------------------------------------------- statistics

  /** `{"text": text_content[start:end], "score": score}`. */
  datatype EntityRecord = EntityRecord(text: string, score: int)

  /** One entry of `entities_by_type`, which keeps the dict's insertion order. */
  datatype TypeGroup = TypeGroup(entityType: string, records: seq<EntityRecord>)

  datatype ProcessingStats = ProcessingStats(totalEntities: nat, entitiesByType: seq<TypeGroup>,
                                             inputFile: string, outputFile: string)

  function RecordOf(text: string, r: RecognizerResult): EntityRecord
  {
    EntityRecord(Slice(text, r.start, r.end), r.score)
  }

  /** The index of the group for `t`, or -1 (`entity_type not in stats["entities_by_type"]`). */
  function GroupIndex(groups: seq<TypeGroup>, t: string): (i: int)
    ensures -1 <= i < |groups|
    ensures i >= 0 ==> groups[i].entityType == t
    ensures i == -1 ==> forall k :: 0 <= k < |groups| ==> groups[k].entityType != t
    decreases |groups|
  {
    if groups == [] then -1
    else if groups[|groups| - 1].entityType == t then |groups| - 1
    else GroupIndex(groups[..|groups| - 1], t)
  }

  /** Append `rec` to the group for `t`, opening that group at the end when there is none. */
  function AddToGroup(groups: seq<TypeGroup>, t: string, rec: EntityRecord): seq<TypeGroup>
  {
    var i := GroupIndex(groups, t);
    if i < 0 then groups + [TypeGroup(t, [rec])]
    else groups[i := TypeGroup(t, groups[i].records + [rec])]
  }

  /** `entities_by_type` after the loop has run over `results`. */
  function GroupByType(text: string, results: seq<RecognizerResult>): (groups: seq<TypeGroup>)
    decreases |results|
  {
    if results == [] then []
    else
      var r := results[|results| - 1];
      AddToGroup(GroupByType(text, results[..|results| - 1]), r.entityType, RecordOf(text, r))
  }

  /** Reference: the records of the results of type `t`, in result order. */
  function RecordsOfType(text: string, results: seq<RecognizerResult>, t: string): seq<EntityRecord>
    decreases |results|
  {
    if results == [] then []
    else
      var rest := RecordsOfType(text, results[..|results| - 1], t);
      var r := results[|results| - 1];
      if r.entityType == t then rest + [RecordOf(text, r)] else rest
  }

  function TotalRecords(groups: seq<TypeGroup>): nat
    decreases |groups|
  {
    if groups == [] then 0 else TotalRecords(groups[..|groups| - 1]) + |groups[|groups| - 1].records|
  }

  predicate DistinctTypes(groups: seq<TypeGroup>)
  {
    forall i, j :: 0 <= i < j < |groups| ==> groups[i].entityType != groups[j].entityType
  }

  /** `t in stats["entities_by_type"]`. */
  predicate HasGroup(groups: seq<TypeGroup>, t: string)
  {
    exists k :: 0 <= k < |groups| && groups[k].entityType == t
  }

  /** Some result has type `t`. */
  predicate HasType(results: seq<RecognizerResult>, t: string)
  {
    exists r :: r in results && r.entityType == t
  }

  lemma GroupIndexFinds(groups: seq<TypeGroup>, t: string)
    ensures GroupIndex(groups, t) >= 0 <==> HasGroup(groups, t)
  {
    if HasGroup(groups, t) {
      var k :| 0 <= k < |groups| && groups[k].entityType == t;
      assert GroupIndex(groups, t) != -1;
    }
  }

  /** Adding a record keeps the types distinct and adds at most its own type. */
  lemma AddToGroupKeys(groups: seq<TypeGroup>, t: string, rec: EntityRecord)
    requires DistinctTypes(groups)
    ensures DistinctTypes(AddToGroup(groups, t, rec))
    ensures forall t2 :: HasGroup(AddToGroup(groups, t, rec), t2) <==> HasGroup(groups, t2) || t2 == t
  {
    var g := AddToGroup(groups, t, rec);
    var i := GroupIndex(groups, t);
    GroupIndexFinds(groups, t);
    forall t2 ensures HasGroup(g, t2) <==> HasGroup(groups, t2) || t2 == t {
      if HasGroup(g, t2) {
        var k :| 0 <= k < |g| && g[k].entityType == t2;
        if k < |groups| && t2 != t {
          assert groups[k].entityType == t2;
        }
      }
      if HasGroup(groups, t2) {
        var k :| 0 <= k < |groups| && groups[k].entityType == t2;
        assert g[k].entityType == t2;
      }
      if t2 == t {
        if i < 0 {
          assert g[|groups|].entityType == t;
        } else {
          assert g[i].entityType == t;
        }
      }
    }
  }

  lemma HasTypeStep(results: seq<RecognizerResult>)
    requires results != []
    ensures forall t :: HasType(results, t) <==> HasType(results[..|results| - 1], t) || results[|results| - 1].entityType == t
  {
    var init := results[..|results| - 1];
    assert results == init + [results[|results| - 1]];
    forall t ensures HasType(results, t) <==> HasType(init, t) || results[|results| - 1].entityType == t {
      if HasType(results, t) {
        var r :| r in results && r.entityType == t;
        if r in init {
          assert HasType(init, t);
        }
      }
      if HasType(init, t) {
        var r :| r in init && r.entityType == t;
        assert r in results;
      }
      assert results[|results| - 1] in results;
    }
  }

  /** The groups are keyed by distinct types, and the keys are exactly the result types. */
  lemma {:induction false} GroupByTypeKeys(text: string, results: seq<RecognizerResult>)
    ensures DistinctTypes(GroupByType(text, results))
    ensures forall t :: HasGroup(GroupByType(text, results), t) <==> HasType(results, t)
    decreases |results|
  {
    if results != [] {
      var init := results[..|results| - 1];
      var r := results[|results| - 1];
      GroupByTypeKeys(text, init);
      AddToGroupKeys(GroupByType(text, init), r.entityType, RecordOf(text, r));
      HasTypeStep(results);
    }
  }

  lemma {:induction false} RecordsOfAbsentType(text: string, results: seq<RecognizerResult>, t: string)
    requires !HasType(results, t)
    ensures RecordsOfType(text, results, t) == []
    decreases |results|
  {
    if results != [] {
      HasTypeStep(results);
      RecordsOfAbsentType(text, results[..|results| - 1], t);
    }
  }

  /** Each group holds exactly the records of its type's results, in the order they came. */
  lemma {:induction false} GroupByTypeRecords(text: string, results: seq<RecognizerResult>)
    ensures forall k :: 0 <= k < |GroupByType(text, results)| ==>
              GroupByType(text, results)[k].records == RecordsOfType(text, results, GroupByType(text, results)[k].entityType)
    decreases |results|
  {
    if results != [] {
      var init := results[..|results| - 1];
      var r := results[|results| - 1];
      var rec := RecordOf(text, r);
      GroupByTypeRecords(text, init);
      GroupByTypeKeys(text, init);
      var g := GroupByType(text, init);
      var g' := GroupByType(text, results);
      assert g' == AddToGroup(g, r.entityType, rec);
      var i := GroupIndex(g, r.entityType);
      GroupIndexFinds(g, r.entityType);
      forall k | 0 <= k < |g'|
        ensures g'[k].records == RecordsOfType(text, results, g'[k].entityType)
      {
        if k < |g| && g[k].entityType != r.entityType {
          assert g'[k] == g[k];
        } else if k < |g| {
          assert k == i;
        } else {
          RecordsOfAbsentType(text, init, r.entityType);
        }
      }
    }
  }

  lemma {:induction false} TotalRecordsAppend(groups: seq<TypeGroup>, x: TypeGroup)
    ensures TotalRecords(groups + [x]) == TotalRecords(groups) + |x.records|
  {
    assert (groups + [x])[..|groups|] == groups;
  }

  lemma {:induction false} TotalRecordsUpdate(groups: seq<TypeGroup>, i: nat, x: TypeGroup)
    requires i < |groups|
    ensures TotalRecords(groups[i := x]) + |groups[i].records| == TotalRecords(groups) + |x.records|
    decreases |groups|
  {
    var n := |groups| - 1;
    if i == n {
      assert groups[i := x][..n] == groups[..n];
    } else {
      assert groups[i := x][..n] == groups[..n][i := x];
      TotalRecordsUpdate(groups[..n], i, x);
    }
  }

  /** The group sizes add up to the number of results, which is `total_entities`. */
  lemma {:induction false} GroupByTypeTotal(text: string, results: seq<RecognizerResult>)
    ensures TotalRecords(GroupByType(text, results)) == |results|
    decreases |results|
  {
    if results != [] {
      var init := results[..|results| - 1];
      var r := results[|results| - 1];
      GroupByTypeTotal(text, init);
      var g := GroupByType(text, init);
      var i := GroupIndex(g, r.entityType);
      if i < 0 {
        TotalRecordsAppend(g, TypeGroup(r.entityType, [RecordOf(text, r)]));
      } else {
        TotalRecordsUpdate(g, i, TypeGroup(r.entityType, g[i].records + [RecordOf(text, r)]));
      }
    }
  }

  /** The `stats` dict and the loop that fills `entities_by_type`. */
  method BuildStats(textContent: string, results: seq<RecognizerResult>, inputFile: string, outputFile: string)
    returns (stats: ProcessingStats)
    ensures stats == ProcessingStats(|results|, GroupByType(textContent, results), inputFile, outputFile)
  {
    stats := ProcessingStats(|results|, [], inputFile, outputFile);
    for i := 0 to |results|
      invariant stats == ProcessingStats(|results|, GroupByType(textContent, results[..i]), inputFile, outputFile)
    {
      var result := results[i];
      assert results[..i + 1][..i] == results[..i];
      stats := stats.(entitiesByType := AddToGroup(stats.entitiesByType, result.entityType, RecordOf(textContent, result)));
    }
    assert results[..|results|] == results;
  }

  // ---------------------------------------------------------------- process_pdf

  /** `FileNotFoundError(f"PDF niet gevonden: {input_path}")`. */
  datatype DocError = FileNotFound(message: string)

  /**
   * What a successful run leaves behind: the statistics it returns, the calls made on the canvas
   * of the output PDF, where that PDF is written, and the directory created for it, if any.
   */
  datatype PdfOutcome = PdfOutcome(stats: ProcessingStats, canvas: seq<CanvasOp>, outputPath: FsPath,
                                   createdDir: Option<FsPath>)

  /** The results `analyze_text` returns for `text`. */
  function AnalyzedResults(text: string, entities: Option<seq<string>>,
                           analyze: (string, seq<string>) -> seq<RecognizerResult>,
                           nameShape: string -> bool): seq<RecognizerResult>
  {
    CoreAnalyzer.Resolve(text, SortDesc(analyze(text, CoreAnalyzer.RequestedEntities(entities)), CoreAnalyzer.PriorityKey), nameShape)
  }

  /** The text `anonymize_text(text, results)` returns with the default operators. */
  function AnonymizedText(text: string, results: seq<RecognizerResult>): string
  {
    PresidioReplace.Replace(text, CoreAnonymizer.SelectSpans(SortDesc(results, CoreAnonymizer.AnonymizerKey)),
                           CoreAnonymizer.EffectiveOperators(None))
  }

  /**
   * `DocumentProcessor.process_pdf`. `inputExists` is `input_path.exists()` and `pages` the text
   * of the input's pages; `keep_layout` is accepted and ignored by the code, so it is not a
   * parameter here.
   */
  method ProcessPdf(inputPath: FsPath, inputExists: bool, outputPath: Option<FsPath>, entities: Option<seq<string>>,
                    pages: seq<string>, analyze: (string, seq<string>) -> seq<RecognizerResult>,
                    nameShape: string -> bool)
    returns (r: Result<PdfOutcome, DocError>)
    ensures r.Err? <==> !inputExists
    ensures r.Err? ==> r.error == FileNotFound("PDF niet gevonden: " + PathString(inputPath))
    ensures r.Ok? ==>
              var out := if outputPath.None? then DefaultOutputPath(inputPath) else outputPath.value;
              var text := ConcatPages(pages);
              var results := AnalyzedResults(text, entities, analyze, nameShape);
              && r.value.outputPath == out
              && r.value.createdDir == (if outputPath.None? then Some(Parent(out)) else None)
              && r.value.canvas == LayoutOps(NonBlankLines(Split(AnonymizedText(text, results), '\n')))
              && r.value.stats == ProcessingStats(|results|, GroupByType(text, results),
                                                  PathString(inputPath), PathString(out))
  {
    if !inputExists {
      return Err(FileNotFound("PDF niet gevonden: " + PathString(inputPath)));
    }
    var out: FsPath;
    var createdDir: Option<FsPath> := None;
    if outputPath.None? {
      var verwerktDir := Parent(inputPath) + ["verwerkt"];
      createdDir := Some(verwerktDir);
      out := verwerktDir + [AnonName(Name(inputPath))];
      assert out == DefaultOutputPath(inputPath);
      assert Parent(out) == verwerktDir;
    } else {
      out := outputPath.value;
    }
    var textContent := ExtractTextFromPdf(pages);
    var results := CoreAnalyzer.AnalyzeText(textContent, entities, analyze, nameShape);
    var anonymizedText := CoreAnonymizer.AnonymizeText(textContent, results, None);
    var canvas := Layout(anonymizedText);
    var stats := BuildStats(textContent, results, PathString(inputPath), PathString(out));
    r := Ok(PdfOutcome(stats, canvas, out, createdDir));
  }
}
