# coffee-gut-microbiome scripts: a Dafny model

This project models the deterministic core of two data-preparation scripts of
the coffee-gut-microbiome repository, and proves properties of that model.

- `scripts/process_predict1_excel.py` explores the PREDICT1 supplementary
  workbook. It picks the workbook among the `*.xlsx`/`*.xls` files, with a
  1-based choice typed by the user. It sorts sheet names into a
  likely-microbiome list and a likely-metadata list by case-insensitive
  keyword match, with the microbiome test taking precedence. It also
  looks for columns whose labels mention coffee, caffeine or a beverage.
  The model is in `predict1_excel.dfy`.
- `scripts/download_agp_sample.py` fetches American Gut Project metadata
  from Qiita when credentials are set, and otherwise falls back to synthetic
  data. The model covers:
  - the credential check;
  - the handling of the single authenticated request, including the row
    limit;
  - the `Sample_%05d` and `OTU_%04d` identifiers;
  - the seven-rank taxonomy strings;
  - the shape of the three tables;
  - the fallback decision.

  The model is in `agp_sample.dfy`.

The supporting modules are:
- `Text`: ASCII `str.lower`, substring containment, `str.split`.
- `Decimal`: `str(n)` and zero-padded `{:0Nd}` formatting, and reading
  numerals back.
- `Sequences`: order-preserving filters, subsequences, and picking distinct
  positions.
- `Wrappers`: `Option`.

Everything that talks to the outside world is a parameter:
- the environment is a `map`;
- the HTTP client is a function from `Request` to `HttpOutcome`;
- the workbook is a sheet list (`sheetsOf`) and a sheet reader (`readSheet`,
  `None` when pandas raises);
- the user's typed reply is a `Reply`;
- every numpy draw is part of a `Draws` value;
- `df.sample` is a list of distinct row positions.

The loops of the source are methods, each proved against a specification
function:
- `ExtractMicrobiomeData` against `MicrobiomeSheets` and `MetadataSheets`;
- `ExtractCoffeeData` against `CoffeeReports`;
- `AssignTaxonomy` against `TaxonomyAssignments`.

Two consequences of the code are worth stating up front:
- The `elif` at `process_predict1_excel.py:80` makes the two sheet lists
  disjoint (`SheetListsDisjoint`).
- The code draws gender and antibiotics from 2 values, country from 4, and
  diet and coffee from 3; `MetadataDraw` uses those sizes.

## Model

| member | source | states |
|---|---|---|
| Predict1Excel.PyIndex | scripts/process_predict1_excel.py:41 | Python list indexing: defined exactly for -len <= i < len, negative indices counting from the end |
| Predict1Excel.FindExcelFile | scripts/process_predict1_excel.py:27-43 | candidates are xlsx then xls matches; none iff both globs are empty; a single file is taken; with several, reply k in 1..n selects the k-th (in the xlsx or the xls part), a reply k in -n+1..0 selects the (n+k)-th as Python's negative indexing does, a non-number raises ValueError, a number outside -n < k <= n raises IndexError; a selected path is always a candidate |
| Predict1Excel.ZeroReplySelectsLast | scripts/process_predict1_excel.py:41 | typing 0 with several candidates selects the last file instead of failing |
| Predict1Excel.MentionsAny | scripts/process_predict1_excel.py:78 | `any(word in text for word in words)` (also at lines 80 and 100): some listed word is contained in the text; Predict1Excel.Classify, Predict1Excel.MicrobiomeSheetsExactly, Predict1Excel.MetadataSheetsExactly and Predict1Excel.CoffeeColumnsExactly state what the classification built on it yields |
| Predict1Excel.Classify | scripts/process_predict1_excel.py:77-81 | microbiome iff the lower-cased name contains a microbiome keyword; metadata iff it contains none of those and a metadata keyword |
| Text.Lower | scripts/process_predict1_excel.py:77 | `str.lower` (ASCII letters): same length, each character lower-cased on its own; Text.LowerIdempotent and Predict1Excel.ClassifyIgnoresCase carry its use |
| Text.LowerIdempotent | scripts/process_predict1_excel.py:77 | lower-casing a lower-cased string changes nothing |
| Text.Contains | scripts/process_predict1_excel.py:78 | Python's `word in text`; its meaning is stated by Text.ContainsIffOccurs |
| Text.ContainsIffOccurs | scripts/process_predict1_excel.py:78 | `word in text` holds iff the word occurs at some position of the text |
| Predict1Excel.MicrobiomeSheets | scripts/process_predict1_excel.py:76-79 | the microbiome list as a specification; Predict1Excel.MicrobiomeSheetsExactly and Predict1Excel.SheetListsOrderAndSize state its contents and order |
| Predict1Excel.MetadataSheets | scripts/process_predict1_excel.py:76-81 | the metadata list as a specification; Predict1Excel.MetadataSheetsExactly and Predict1Excel.SheetListsOrderAndSize state its contents and order |
| Predict1Excel.ExtractMicrobiomeData | scripts/process_predict1_excel.py:69-86 | the loop's two lists equal the order-preserving filters of the sheet names by the two classes |
| Predict1Excel.MicrobiomeSheetsExactly | scripts/process_predict1_excel.py:78-79 | a name is in the microbiome list iff it is a sheet name mentioning a microbiome keyword |
| Predict1Excel.MetadataSheetsExactly | scripts/process_predict1_excel.py:80-81 | a name is in the metadata list iff it is a sheet name with no microbiome keyword and some metadata keyword |
| Predict1Excel.SheetListsDisjoint | scripts/process_predict1_excel.py:78-81 | no name is in both lists |
| Predict1Excel.SheetListsOrderAndSize | scripts/process_predict1_excel.py:73-86 | both lists are subsequences of the sheet names and their lengths sum to at most the number of sheets |
| Predict1Excel.ClassifyIgnoresCase | scripts/process_predict1_excel.py:77 | a name and its lower-cased form are classified alike |
| Predict1Excel.ClassifyOtuAbundance | scripts/process_predict1_excel.py:77-79 | "OTU_Abundance" is a microbiome sheet |
| Predict1Excel.ClassifyParticipantMetadata | scripts/process_predict1_excel.py:77-81 | "Participant_Metadata" is a metadata sheet (no microbiome keyword, contains "participant") |
| Predict1Excel.CoffeeColumns | scripts/process_predict1_excel.py:99-100 | the coffee-column comprehension; Predict1Excel.CoffeeColumnsExactly states which labels it keeps, how often and in what order |
| Predict1Excel.CoffeeColumnsExactly | scripts/process_predict1_excel.py:99-100 | the coffee filter keeps every coffee label as often as it occurs, drops every other label, and keeps column order |
| Predict1Excel.CoffeeReports | scripts/process_predict1_excel.py:94-108 | the reports in sheet order; Predict1Excel.CoffeeReportsSound and Predict1Excel.CoffeeReportsComplete state that they are exactly the readable sheets with coffee columns |
| Predict1Excel.ExtractCoffeeData | scripts/process_predict1_excel.py:88-115 | the reports are one per readable sheet with coffee columns, in sheet order; coffee_found iff some sheet has a coffee column iff some report exists; unreadable sheets are skipped |
| Predict1Excel.CoffeeReportsSound | scripts/process_predict1_excel.py:94-108 | every report names a listed sheet that has coffee columns and lists exactly those columns |
| Predict1Excel.CoffeeReportsComplete | scripts/process_predict1_excel.py:94-108 | every readable sheet with coffee columns gets a report carrying exactly those columns |
| Predict1Excel.ProcessPredict1 | scripts/process_predict1_excel.py:117-135 | aborts iff no workbook; crashes iff the reply raises; otherwise returns the selected path, both sheet lists of its sheets and whether coffee was found |
| Decimal.Digits | scripts/download_agp_sample.py:76 | `str(n)`: a non-empty string of decimal digits in canonical form, "0" exactly for 0 and otherwise without a leading zero; Decimal.ValueOfDigits reads it back as n |
| Decimal.ValueOfDigits | scripts/download_agp_sample.py:76 | the numeral of n reads back as n |
| Decimal.ZeroPad | scripts/download_agp_sample.py:125 | `{n:0Nd}`: all digits, at least N long and never shorter than `str(n)`, exactly N long or `str(n)` itself |
| Decimal.ZeroPadValue | scripts/download_agp_sample.py:125 | a zero-padded numeral reads back as its number |
| Decimal.ZeroPadInjective | scripts/download_agp_sample.py:125 | two numbers have the same zero-padded numeral iff they are equal |
| AgpSample.FormatIdShape | scripts/download_agp_sample.py:125 | an identifier is its prefix followed by at least width digits that read back as its number |
| AgpSample.FormatId | scripts/download_agp_sample.py:125 | one identifier `prefix + {i:0Nd}`; Decimal.ZeroPadValue, AgpSample.FormatIdShape and AgpSample.FormatIdInjective state its shape, read-back and injectivity |
| AgpSample.FormatIds | scripts/download_agp_sample.py:125 | the identifier list of a comprehension: n identifiers, the i-th for i |
| AgpSample.SampleIds | scripts/download_agp_sample.py:125 | the sample identifiers; AgpSample.SampleIdsWellFormed states their count, distinctness and format |
| AgpSample.OtuIds | scripts/download_agp_sample.py:143-144 | the OTU identifiers; AgpSample.OtuIdsWellFormed states their count (500), distinctness and format |
| AgpSample.FormatIdInjective | scripts/download_agp_sample.py:144 | distinct numbers give distinct identifiers |
| AgpSample.SampleIdsWellFormed | scripts/download_agp_sample.py:125 | n sample identifiers, pairwise distinct, each "Sample_" then digits reading back as its position, exactly 12 characters below 100000 |
| AgpSample.OtuIdsWellFormed | scripts/download_agp_sample.py:143-144 | exactly 500 OTU identifiers, pairwise distinct, each "OTU_" then four digits reading back as its position |
| AgpSample.VocabularyHasNoSeparator | scripts/download_agp_sample.py:151-156 | no rank vocabulary word contains ';' |
| AgpSample.TaxonomyFields | scripts/download_agp_sample.py:167 | the seven fields of the f-string: `k__Bacteria`, then for each rank its prefix followed by the drawn word |
| AgpSample.TaxonomyString | scripts/download_agp_sample.py:167 | the f-string, the seven fields joined by ';'; AgpSample.TaxonomyStringFields splits it back into them |
| Text.SplitJoin | scripts/download_agp_sample.py:167 | joining separator-free fields with ';' and splitting at ';' gives the same fields back |
| AgpSample.TaxonomyStringFields | scripts/download_agp_sample.py:167 | splitting a taxonomy string at ';' yields its seven fields: k__Bacteria, then each rank's prefix and its drawn name, in rank order |
| AgpSample.TaxonomyStringWellFormed | scripts/download_agp_sample.py:158-168 | every taxonomy string has seven fields, kingdom Bacteria, each rank's prefix and a word from that rank's vocabulary |
| AgpSample.AssignTaxonomy | scripts/download_agp_sample.py:158-168 | the loop yields one well-formed taxonomy string per OTU, the i-th built from the i-th OTU's draws |
| AgpSample.TruncateTowardZero | scripts/download_agp_sample.py:137 | `astype(int)` truncates toward zero: the result lies within one of the real, on the side of zero |
| AgpSample.SyntheticRow | scripts/download_agp_sample.py:129-138 | one metadata row from one sample's draws; AgpSample.SyntheticMetadataRanges states its columns and ranges |
| AgpSample.SyntheticMetadata | scripts/download_agp_sample.py:129-139 | the synthetic metadata table; AgpSample.SyntheticMetadataRanges states its rows, AgpSample.SyntheticDatasetConsistent that its index is the n sample identifiers |
| AgpSample.SyntheticMetadataRanges | scripts/download_agp_sample.py:129-138 | each synthetic row has the eight columns, age in 18..79, sample type Stool and every category from its vocabulary |
| AgpSample.SampleIndex | scripts/download_agp_sample.py:207 | `list(metadata.index)`: one identifier per row, the i-th being row i's sample identifier |
| AgpSample.BuildFeatureTable | scripts/download_agp_sample.py:145-147 | the count matrix has one row per OTU identifier and one column per sample identifier |
| AgpSample.BuildTaxonomyTable | scripts/download_agp_sample.py:170-171 | the taxonomy table indexed by the OTU identifiers under "#OTU ID"; AgpSample.SyntheticDatasetConsistent and AgpSample.FetchedDatasetConsistent state that its rows match the feature table's and its strings are well formed |
| AgpSample.SyntheticDataset | scripts/download_agp_sample.py:108-173 | the three tables create_sample_data returns; AgpSample.SyntheticDatasetConsistent states they are consistent and indexed by the n sample identifiers |
| AgpSample.FetchedDataset | scripts/download_agp_sample.py:205-237 | the fetched metadata with the feature and taxonomy tables built around it; AgpSample.FetchedDatasetConsistent states they are consistent |
| AgpSample.SyntheticDatasetConsistent | scripts/download_agp_sample.py:108-173 | the synthetic tables agree: feature columns are the metadata index (the n sample identifiers), feature and taxonomy rows are the 500 OTU identifiers, every taxonomy string is well formed |
| AgpSample.FetchedDatasetConsistent | scripts/download_agp_sample.py:205-237 | around any fetched metadata, the feature columns are the metadata index and the OTU and taxonomy tables agree |
| AgpSample.CreateSampleData | scripts/download_agp_sample.py:108-173 | create_sample_data returns the synthetic tables, which are consistent and indexed by the sample identifiers |
| AgpSample.GetEnv | scripts/download_agp_sample.py:42-43 | `os.getenv`: a value iff the variable is set, and then the variable's value |
| AgpSample.GetQiitaCredentials | scripts/download_agp_sample.py:34-51 | credentials are returned, as set, iff both variables are set and non-empty; otherwise (None, None) |
| AgpSample.QiitaRequest | scripts/download_agp_sample.py:76-80 | the one request: the study's metadata endpoint, the credentials as basic auth and a 30-second timeout; AgpSample.DownloadAgpSample states it is made exactly once iff use_auth is on and credentials are present, and AgpSample.AgpEndpoint gives its URL |
| AgpSample.Endpoint | scripts/download_agp_sample.py:76 | the metadata URL of a study; AgpSample.AgpEndpoint states it for study 10317 |
| AgpSample.AgpEndpoint | scripts/download_agp_sample.py:76 | the request goes to https://qiita.ucsd.edu/api/v1/study/10317/metadata |
| AgpSample.FetchSamplesWithAuth | scripts/download_agp_sample.py:53-106 | a table comes back iff the request answered 200 with a parsable body (401, other statuses and exceptions give None); it keeps the fetched header and has min(rows, limit) rows |
| AgpSample.FetchRowLimit | scripts/download_agp_sample.py:89-94 | the result keeps the header and has min(rows, limit) rows; a table of at most limit rows is unchanged, a longer one is cut to a sub-multiset of its rows |
| AgpSample.AuthenticatedMetadata | scripts/download_agp_sample.py:195-199 | metadata is fetched iff use_auth is on, both credentials are present and the request answered 200 with a parsable body |
| AgpSample.DownloadAgpSample | scripts/download_agp_sample.py:175-237 | one request is made iff use_auth and credentials are present; synthetic fallback iff no use_auth, no credentials or no fetched table; the tables returned are the synthetic or the fetched ones accordingly, and always consistent |
| AgpSample.NoCredentialsMeansSynthetic | scripts/download_agp_sample.py:195-204 | with use_auth off or credentials missing no metadata is fetched |
| AgpSample.Non200MeansSynthetic | scripts/download_agp_sample.py:82-106 | a non-200 answer or an exception leaves no fetched metadata, so download_agp_sample falls back |

## Left out

- Printing: every `print` is left out. The coffee findings of
  extract_coffee_data are returned as `CoffeeReport`s instead. The sample
  values it prints (`dropna().head(3)`) are not modelled.
- setup_directories, explore_excel_sheets and the writing of the three TSV
  files: filesystem and pandas I/O. The sheet list explore_excel_sheets
  returns is the `sheetsOf` parameter. The preview read it makes of each
  sheet only prints.
- The exception `pd.ExcelFile` raises on an unreadable workbook is not
  modelled. `sheetsOf` always yields a list.
- Column labels are given as strings, that is after `str(col)`. Non-string
  labels are not modelled.
- `Text.Lower` lower-cases ASCII letters only. Python's Unicode case
  mapping is not modelled.
- Network, `.env` loading and the HTTP request are parameters. A response
  body that fails to parse is folded into `HttpOutcome`, with a `None` body.
- Randomness: the numpy seed and distributions are not modelled. Every
  draw is an input (`Draws`), restricted to the ranges the calls can
  produce. The negative-binomial counts are arbitrary naturals, and the
  BMI is an arbitrary real before truncation.
- AgpSample.FetchSamplesWithAuth: `df.sample(n=limit, random_state=42)` is
  given as `limit` distinct row positions (`SampleFits`). The model proves
  the rows kept are a sub-multiset of length `limit`, but not which rows
  pandas picks.
- Negative `n_samples` / `limit` are not modelled (both are `nat`).
  Negative values would make numpy raise in create_sample_data.
- The default arguments (`limit=1000`, `n_samples=1000`, the script's
  `n_samples=5000`) are not fixed; they are ordinary parameters.
- The two copies of the taxonomy loop (lines 158-168 and 224-234) are
  modelled once, as `AssignTaxonomy`.
