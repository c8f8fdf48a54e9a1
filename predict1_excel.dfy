/**
 * The deterministic part of the PREDICT1 workbook explorer
 * (scripts/process_predict1_excel.py): choosing the workbook among the
 * candidate files, sorting sheet names into likely-microbiome and
 * likely-metadata lists, and finding coffee-related column labels.
 *
 * The workbook itself is abstracted: its sheet names are given, and reading
 * one sheet is a function from (file, sheet) to its column labels, or None
 * when pandas raises.
 */
module Predict1Excel {
  import opened Wrappers
  import opened Text
  import opened Sequences

  const MicrobiomeKeywords: seq<string> := ["otu", "asv", "abundance", "microbiome", "taxa", "species"]
  const MetadataKeywords: seq<string> := ["metadata", "sample", "participant", "demographic", "diet"]
  const CoffeeKeywords: seq<string> := ["coffee", "caffeine", "beverage"]

  /** Python's `any(word in text for word in words)`. */
  predicate MentionsAny(text: string, words: seq<string>)
  {
    exists w :: w in words && Contains(text, w)
  }

  // ---------------------------------------------------------------------
  // Choosing the workbook (find_excel_file)
  // ---------------------------------------------------------------------

  /** The user's reply to the "Enter the number" prompt, after `int(choice)`. */
  datatype Reply = Number(k: int) | NotANumber

  /** What find_excel_file yields; the two errors are exceptions the script does not catch. */
  datatype Selection = NoExcelFile | Selected(path: string) | ValueError | IndexError

  /** Python's `files[i]`, negative indices counting from the end. */
  function PyIndex<T>(s: seq<T>, i: int): (r: Option<T>)
    ensures r.Some? <==> -|s| <= i < |s|
    ensures 0 <= i < |s| ==> r == Some(s[i])
    ensures -|s| <= i < 0 ==> r == Some(s[|s| + i])
  {
    if 0 <= i < |s| then Some(s[i])
    else if -|s| <= i < 0 then Some(s[|s| + i])
    else None
  }

  /**
   * find_excel_file: the candidates are the `*.xlsx` matches followed by the
   * `*.xls` matches; none gives NoExcelFile, one is taken without asking,
   * several are resolved by the 1-based number the user types.
   */
  function FindExcelFile(xlsx: seq<string>, xls: seq<string>, reply: Reply): (r: Selection)
    ensures r == NoExcelFile <==> xlsx == [] && xls == []
    ensures |xlsx + xls| == 1 ==> r == Selected((xlsx + xls)[0])
    ensures |xlsx + xls| > 1 && reply.Number? && 1 <= reply.k <= |xlsx + xls| ==>
              r == Selected((xlsx + xls)[reply.k - 1])
    ensures |xlsx + xls| > 1 && reply.Number? && 1 <= reply.k <= |xlsx| ==> r == Selected(xlsx[reply.k - 1])
    ensures |xlsx + xls| > 1 && reply.Number? && |xlsx| < reply.k <= |xlsx + xls| ==>
              r == Selected(xls[reply.k - 1 - |xlsx|])
    ensures |xlsx + xls| > 1 && reply.Number? && -|xlsx + xls| < reply.k <= 0 ==>
              r == Selected((xlsx + xls)[|xlsx + xls| + reply.k - 1])
    ensures r == ValueError <==> |xlsx + xls| > 1 && reply == NotANumber
    ensures r == IndexError <==> |xlsx + xls| > 1 && reply.Number? && !(-|xlsx + xls| < reply.k <= |xlsx + xls|)
    ensures r.Selected? ==> r.path in xlsx + xls
  {
    var files := xlsx + xls;
    if files == [] then NoExcelFile
    else if |files| > 1 then
      match reply
      case NotANumber => ValueError
      case Number(k) =>
        match PyIndex(files, k - 1)
        case Some(f) => Selected(f)
        case None => IndexError
    else Selected(files[0])
  }

  /** Typing 0 with several candidates selects the last one (index -1) rather than failing. */
  lemma ZeroReplySelectsLast(xlsx: seq<string>, xls: seq<string>)
    requires |xlsx + xls| > 1
    ensures FindExcelFile(xlsx, xls, Number(0)) == Selected((xlsx + xls)[|xlsx + xls| - 1])
  {
  }

  // ---------------------------------------------------------------------
  // Sheet classification (extract_microbiome_data)
  // ---------------------------------------------------------------------

  datatype SheetKind = MicrobiomeSheet | MetadataSheet | OtherSheet

  /** The if/elif of extract_microbiome_data applied to one sheet name. */
  function Classify(name: string): (k: SheetKind)
    ensures k == MicrobiomeSheet <==> MentionsAny(Lower(name), MicrobiomeKeywords)
    ensures k == MetadataSheet <==>
              !MentionsAny(Lower(name), MicrobiomeKeywords) && MentionsAny(Lower(name), MetadataKeywords)
  {
    var lower := Lower(name);
    if MentionsAny(lower, MicrobiomeKeywords) then MicrobiomeSheet
    else if MentionsAny(lower, MetadataKeywords) then MetadataSheet
    else OtherSheet
  }

  predicate IsMicrobiomeName(name: string)
  {
    Classify(name) == MicrobiomeSheet
  }

  predicate IsMetadataName(name: string)
  {
    Classify(name) == MetadataSheet
  }

  /** Specification of the two lists extract_microbiome_data builds. */
  function MicrobiomeSheets(sheetNames: seq<string>): seq<string>
  {
    Filter(sheetNames, IsMicrobiomeName)
  }

  function MetadataSheets(sheetNames: seq<string>): seq<string>
  {
    Filter(sheetNames, IsMetadataName)
  }

  /** extract_microbiome_data: one pass over the sheet names, appending to two lists. */
  method ExtractMicrobiomeData(excelPath: string, sheetNames: seq<string>)
    returns (microbiomeSheets: seq<string>, metadataSheets: seq<string>)
    ensures microbiomeSheets == MicrobiomeSheets(sheetNames)
    ensures metadataSheets == MetadataSheets(sheetNames)
  {
    microbiomeSheets := [];
    metadataSheets := [];
    for i := 0 to |sheetNames|
      invariant microbiomeSheets == Filter(sheetNames[..i], IsMicrobiomeName)
      invariant metadataSheets == Filter(sheetNames[..i], IsMetadataName)
    {
      var sheet := sheetNames[i];
      var sheetLower := Lower(sheet);
      FilterExtend(sheetNames, i, IsMicrobiomeName);
      FilterExtend(sheetNames, i, IsMetadataName);
      if MentionsAny(sheetLower, MicrobiomeKeywords) {
        microbiomeSheets := microbiomeSheets + [sheet];
      } else if MentionsAny(sheetLower, MetadataKeywords) {
        metadataSheets := metadataSheets + [sheet];
      }
    }
    assert sheetNames[..|sheetNames|] == sheetNames;
  }

  /** A sheet is listed as microbiome iff its lower-cased name contains a microbiome keyword. */
  lemma MicrobiomeSheetsExactly(sheetNames: seq<string>, name: string)
    ensures name in MicrobiomeSheets(sheetNames) <==>
              name in sheetNames && MentionsAny(Lower(name), MicrobiomeKeywords)
  {
    FilterMembership(sheetNames, IsMicrobiomeName, name);
  }

  /** A sheet is listed as metadata iff it mentions no microbiome keyword but a metadata keyword. */
  lemma MetadataSheetsExactly(sheetNames: seq<string>, name: string)
    ensures name in MetadataSheets(sheetNames) <==>
              name in sheetNames
              && !MentionsAny(Lower(name), MicrobiomeKeywords)
              && MentionsAny(Lower(name), MetadataKeywords)
  {
    FilterMembership(sheetNames, IsMetadataName, name);
  }

  /** No sheet lands in both lists: the microbiome test takes precedence. */
  lemma SheetListsDisjoint(sheetNames: seq<string>, name: string)
    ensures !(name in MicrobiomeSheets(sheetNames) && name in MetadataSheets(sheetNames))
  {
    FilterMembership(sheetNames, IsMicrobiomeName, name);
    FilterMembership(sheetNames, IsMetadataName, name);
  }

  /** Each list keeps the workbook's sheet order, and together they list at most every sheet once. */
  lemma SheetListsOrderAndSize(sheetNames: seq<string>)
    ensures IsSubsequence(MicrobiomeSheets(sheetNames), sheetNames)
    ensures IsSubsequence(MetadataSheets(sheetNames), sheetNames)
    ensures |MicrobiomeSheets(sheetNames)| + |MetadataSheets(sheetNames)| <= |sheetNames|
  {
    FilterIsSubsequence(sheetNames, IsMicrobiomeName);
    FilterIsSubsequence(sheetNames, IsMetadataName);
    DisjointFiltersFit(sheetNames, IsMicrobiomeName, IsMetadataName);
  }

  /** Classification ignores case: a name and its lower-cased form are sorted alike. */
  lemma ClassifyIgnoresCase(name: string)
    ensures Classify(Lower(name)) == Classify(name)
  {
    LowerIdempotent(name);
  }

  /** "OTU_Abundance" is a microbiome sheet. */
  lemma ClassifyOtuAbundance(name: string)
    requires name == "OTU_Abundance"
    ensures Classify(name) == MicrobiomeSheet
  {
    var lower := Lower(name);
    assert lower == "otu_abundance";
    assert "otu" <= lower;
    assert "otu" in MicrobiomeKeywords && Contains(lower, "otu");
  }

  /** Every microbiome keyword has one of the letters o, v, b, x, s. */
  lemma NoMicrobiomeLetters(lower: string)
    requires 'o' !in lower && 'v' !in lower && 'b' !in lower && 'x' !in lower && 's' !in lower
    ensures !MentionsAny(lower, MicrobiomeKeywords)
  {
    MissingLetterExcludes(lower, "otu", 'o');
    MissingLetterExcludes(lower, "asv", 'v');
    MissingLetterExcludes(lower, "abundance", 'b');
    MissingLetterExcludes(lower, "microbiome", 'o');
    MissingLetterExcludes(lower, "taxa", 'x');
    MissingLetterExcludes(lower, "species", 's');
  }

  /** "Participant_Metadata" is a metadata sheet. */
  lemma ClassifyParticipantMetadata(name: string)
    requires name == "Participant_Metadata"
    ensures Classify(name) == MetadataSheet
  {
    var lower := Lower(name);
    ParticipantMetadataLowered(name);
    ParticipantMetadataLetters(name);
    NoMicrobiomeLetters(lower);
    assert "participant" in MetadataKeywords;
    assert MentionsAny(lower, MetadataKeywords);
  }

  /** The lower-cased name starts with "participant". */
  lemma ParticipantMetadataLowered(name: string)
    requires name == "Participant_Metadata"
    ensures Contains(Lower(name), "participant")
  {
    var lower := Lower(name);
    assert "participant" <= lower by {
      assert lower[..11] == "participant";
    }
  }

  /** The lower-cased name has none of the letters o, v, b, x, s. */
  lemma ParticipantMetadataLetters(name: string)
    requires name == "Participant_Metadata"
    ensures var lower := Lower(name);
      'o' !in lower && 'v' !in lower && 'b' !in lower && 'x' !in lower && 's' !in lower
  {
    var lower := Lower(name);
    forall i | 0 <= i < |lower| ensures lower[i] !in "ovbxs" {
      assert name[i] in "ParticipntMedt_";
    }
  }

  // ---------------------------------------------------------------------
  // Coffee columns (extract_coffee_data)
  // ---------------------------------------------------------------------

  /** A column label whose string form mentions coffee, caffeine or a beverage. */
  predicate IsCoffeeColumn(column: string)
  {
    MentionsAny(Lower(column), CoffeeKeywords)
  }

  /** The list comprehension `coffee_cols` over a sheet's column labels. */
  function CoffeeColumns(columns: seq<string>): seq<string>
  {
    Filter(columns, IsCoffeeColumn)
  }

  /** The coffee filter keeps exactly the coffee labels, each as often as it occurs, in column order. */
  lemma CoffeeColumnsExactly(columns: seq<string>, column: string)
    ensures multiset(CoffeeColumns(columns))[column] ==
              if IsCoffeeColumn(column) then multiset(columns)[column] else 0
    ensures column in CoffeeColumns(columns) <==> column in columns && IsCoffeeColumn(column)
    ensures IsSubsequence(CoffeeColumns(columns), columns)
  {
    FilterCount(columns, IsCoffeeColumn, column);
    FilterIsSubsequence(columns, IsCoffeeColumn);
  }

  /** What the script reports for a sheet that has coffee columns. */
  datatype CoffeeReport = CoffeeReport(sheet: string, columns: seq<string>)

  /** The sheet was read and at least one of its columns is a coffee column. */
  predicate HasCoffee(readSheet: (string, string) -> Option<seq<string>>, excelPath: string, sheet: string)
  {
    readSheet(excelPath, sheet).Some? && CoffeeColumns(readSheet(excelPath, sheet).value) != []
  }

  /** The reports extract_coffee_data prints, in sheet order; unreadable sheets are skipped. */
  function CoffeeReports(readSheet: (string, string) -> Option<seq<string>>, excelPath: string, sheetNames: seq<string>)
    : seq<CoffeeReport>
  {
    if sheetNames == [] then []
    else
      var sheet := sheetNames[|sheetNames| - 1];
      CoffeeReports(readSheet, excelPath, sheetNames[..|sheetNames| - 1])
      + if HasCoffee(readSheet, excelPath, sheet)
        then [CoffeeReport(sheet, CoffeeColumns(readSheet(excelPath, sheet).value))]
        else []
  }

  /**
   * extract_coffee_data: scans every sheet, skipping those that fail to
   * read, and raises the `coffee_found` flag when some sheet has a coffee
   * column.
   */
  method ExtractCoffeeData(
    readSheet: (string, string) -> Option<seq<string>>, excelPath: string, sheetNames: seq<string>)
    returns (coffeeFound: bool, reports: seq<CoffeeReport>)
    ensures reports == CoffeeReports(readSheet, excelPath, sheetNames)
    ensures coffeeFound <==> exists i :: 0 <= i < |sheetNames| && HasCoffee(readSheet, excelPath, sheetNames[i])
    ensures coffeeFound <==> reports != []
  {
    coffeeFound := false;
    reports := [];
    for i := 0 to |sheetNames|
      invariant reports == CoffeeReports(readSheet, excelPath, sheetNames[..i])
      invariant coffeeFound <==> exists j :: 0 <= j < i && HasCoffee(readSheet, excelPath, sheetNames[j])
      invariant coffeeFound <==> reports != []
    {
      var sheet := sheetNames[i];
      assert sheetNames[..i + 1][..i] == sheetNames[..i];
      match readSheet(excelPath, sheet)
      case None =>
        // pandas raised: the sheet is skipped
      case Some(columns) =>
        var coffeeCols := CoffeeColumns(columns);
        if coffeeCols != [] {
          reports := reports + [CoffeeReport(sheet, coffeeCols)];
          coffeeFound := true;
        }
    }
    assert sheetNames[..|sheetNames|] == sheetNames;
  }

  /** Every report names a listed sheet and exactly its coffee columns. */
  lemma {:induction false} CoffeeReportsSound(
    readSheet: (string, string) -> Option<seq<string>>, excelPath: string, sheetNames: seq<string>, r: CoffeeReport)
    requires r in CoffeeReports(readSheet, excelPath, sheetNames)
    ensures r.sheet in sheetNames && HasCoffee(readSheet, excelPath, r.sheet)
    ensures r.columns == CoffeeColumns(readSheet(excelPath, r.sheet).value) && r.columns != []
  {
    var init := sheetNames[..|sheetNames| - 1];
    if r in CoffeeReports(readSheet, excelPath, init) {
      CoffeeReportsSound(readSheet, excelPath, init, r);
    }
  }

  /** Every readable sheet with coffee columns is reported, with exactly those columns. */
  lemma {:induction false} CoffeeReportsComplete(
    readSheet: (string, string) -> Option<seq<string>>, excelPath: string, sheetNames: seq<string>, i: nat)
    requires i < |sheetNames| && HasCoffee(readSheet, excelPath, sheetNames[i])
    ensures CoffeeReport(sheetNames[i], CoffeeColumns(readSheet(excelPath, sheetNames[i]).value))
            in CoffeeReports(readSheet, excelPath, sheetNames)
    decreases |sheetNames|
  {
    var init := sheetNames[..|sheetNames| - 1];
    if i < |sheetNames| - 1 {
      assert init[i] == sheetNames[i];
      CoffeeReportsComplete(readSheet, excelPath, init, i);
    }
  }

  // ---------------------------------------------------------------------
  // The script's main
  // ---------------------------------------------------------------------

  datatype Outcome =
    | Aborted                       // no workbook found: the script returns early
    | Crashed(error: Selection)     // the reply raised ValueError or IndexError
    | Explored(excelPath: string, microbiomeSheets: seq<string>, metadataSheets: seq<string>, coffeeFound: bool)

  /**
   * main: find the workbook, list its sheets (`sheetsOf`), classify them
   * and look for coffee columns.
   */
  method ProcessPredict1(
    xlsx: seq<string>, xls: seq<string>, reply: Reply,
    sheetsOf: string -> seq<string>, readSheet: (string, string) -> Option<seq<string>>)
    returns (outcome: Outcome)
    ensures outcome == Aborted <==> xlsx == [] && xls == []
    ensures outcome.Crashed? <==> FindExcelFile(xlsx, xls, reply) in {ValueError, IndexError}
    ensures outcome.Explored? ==>
              var path := FindExcelFile(xlsx, xls, reply).path;
              && FindExcelFile(xlsx, xls, reply).Selected?
              && outcome.excelPath == path
              && outcome.microbiomeSheets == MicrobiomeSheets(sheetsOf(path))
              && outcome.metadataSheets == MetadataSheets(sheetsOf(path))
              && (outcome.coffeeFound <==>
                    exists i :: 0 <= i < |sheetsOf(path)| && HasCoffee(readSheet, path, sheetsOf(path)[i]))
  {
    var selection := FindExcelFile(xlsx, xls, reply);
    match selection
    case NoExcelFile =>
      outcome := Aborted;
    case ValueError =>
      outcome := Crashed(selection);
    case IndexError =>
      outcome := Crashed(selection);
    case Selected(excelPath) =>
      var sheetNames := sheetsOf(excelPath);
      var microbiomeSheets, metadataSheets := ExtractMicrobiomeData(excelPath, sheetNames);
      var coffeeFound, _ := ExtractCoffeeData(readSheet, excelPath, sheetNames);
      outcome := Explored(excelPath, microbiomeSheets, metadataSheets, coffeeFound);
  }
}
