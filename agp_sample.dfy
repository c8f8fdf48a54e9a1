/**
 * The deterministic part of the American Gut Project downloader
 * (scripts/download_agp_sample.py): the credential check, the handling of
 * the one authenticated request and the row limit, the synthetic sample and
 * OTU identifiers, the seven-rank taxonomy strings, and the choice between
 * the fetched metadata and the synthetic fallback.
 *
 * The environment is a map from variable names to values; the HTTP client
 * is a function from the request to its outcome; every numpy draw and the
 * row sample are inputs (see Draws and the `pick` positions).
 */
module AgpSample {
  import opened Wrappers
  import opened Text
  import opened Decimal
  import opened Sequences

  const QiitaBaseUrl := "https://qiita.ucsd.edu/api/v1"
  const StudyId: nat := 10317
  const RequestTimeoutSeconds: nat := 30
  const UsernameVariable := "QIITA_USERNAME"
  const PasswordVariable := "QIITA_PASSWORD"
  const NumOtus: nat := 500

  // ---------------------------------------------------------------------
  // Tables
  // ---------------------------------------------------------------------

  datatype Cell = IntCell(i: int) | TextCell(s: string)

  /** One metadata row: its index label (the sample identifier) and its cells. */
  datatype Row = Row(sampleId: string, cells: seq<Cell>)

  datatype Metadata = Metadata(indexName: string, columns: seq<string>, rows: seq<Row>)

  /** Feature table: one row per OTU identifier, one column per sample identifier. */
  datatype FeatureTable = FeatureTable(indexName: string, otuIds: seq<string>, sampleIds: seq<string>, counts: seq<seq<nat>>)

  /** Taxonomy table: one row per OTU identifier and a single taxonomy column. */
  datatype TaxonomyTable = TaxonomyTable(indexName: string, column: string, otuIds: seq<string>, assignments: seq<string>)

  /** The three tables the script writes to metadata.tsv, feature-table.tsv and taxonomy.tsv. */
  datatype Dataset = Dataset(metadata: Metadata, features: FeatureTable, taxonomy: TaxonomyTable)

  /** `list(metadata.index)`. */
  function SampleIndex(m: Metadata): (ids: seq<string>)
    ensures |ids| == |m.rows|
    ensures forall i :: 0 <= i < |m.rows| ==> ids[i] == m.rows[i].sampleId
  {
    seq(|m.rows|, i requires 0 <= i < |m.rows| => m.rows[i].sampleId)
  }

  /** Every row of counts has one entry per sample column. */
  predicate WellShaped(t: FeatureTable)
  {
    && |t.counts| == |t.otuIds|
    && forall i :: 0 <= i < |t.counts| ==> |t.counts[i]| == |t.sampleIds|
  }

  // ---------------------------------------------------------------------
  // Identifiers
  // ---------------------------------------------------------------------

  /** `f"{prefix}{i:0{width}d}"`. */
  function FormatId(prefix: string, width: nat, i: nat): string
  {
    prefix + ZeroPad(i, width)
  }

  /** `[f"{prefix}{i:0{width}d}" for i in range(n)]`. */
  function FormatIds(prefix: string, width: nat, n: nat): (ids: seq<string>)
    ensures |ids| == n
    ensures forall i :: 0 <= i < n ==> ids[i] == FormatId(prefix, width, i)
  {
    seq(n, i requires 0 <= i < n => FormatId(prefix, width, i))
  }

  function SampleIds(n: nat): seq<string>
  {
    FormatIds("Sample_", 5, n)
  }

  function OtuIds(): seq<string>
  {
    FormatIds("OTU_", 4, NumOtus)
  }

  /** An identifier is the prefix followed by the zero-padded numeral of its number, which reads back. */
  lemma FormatIdShape(prefix: string, width: nat, i: nat)
    ensures var id := FormatId(prefix, width, i);
      && |id| >= |prefix| + width
      && id[..|prefix|] == prefix
      && AllDigits(id[|prefix|..])
      && Value(id[|prefix|..]) == i
  {
    var id := FormatId(prefix, width, i);
    assert id[|prefix|..] == ZeroPad(i, width);
    ZeroPadValue(i, width);
  }

  /** Distinct numbers give distinct identifiers. */
  lemma FormatIdInjective(prefix: string, width: nat, i: nat, j: nat)
    requires i != j
    ensures FormatId(prefix, width, i) != FormatId(prefix, width, j)
  {
    FormatIdShape(prefix, width, i);
    FormatIdShape(prefix, width, j);
  }

  /** The n sample identifiers are pairwise distinct, and the i-th is "Sample_" then i padded to 5 digits. */
  lemma SampleIdsWellFormed(n: nat)
    ensures |SampleIds(n)| == n
    ensures forall i, j :: 0 <= i < j < n ==> SampleIds(n)[i] != SampleIds(n)[j]
    ensures forall i :: 0 <= i < n ==>
      var id := SampleIds(n)[i];
      |id| >= 12 && id[..7] == "Sample_" && AllDigits(id[7..]) && Value(id[7..]) == i
    ensures forall i :: 0 <= i < n && i < 100000 ==> |SampleIds(n)[i]| == 12
  {
    forall i, j | 0 <= i < j < n ensures SampleIds(n)[i] != SampleIds(n)[j] {
      FormatIdInjective("Sample_", 5, i, j);
    }
    forall i | 0 <= i < n
      ensures var id := SampleIds(n)[i];
        |id| >= 12 && id[..7] == "Sample_" && AllDigits(id[7..]) && Value(id[7..]) == i
      ensures i < 100000 ==> |SampleIds(n)[i]| == 12
    {
      FormatIdShape("Sample_", 5, i);
      if i < 100000 {
        assert Pow10(5) == 100000;
        ZeroPadExactWidth(i, 5);
      }
    }
  }

  /** Exactly 500 OTU identifiers, pairwise distinct, each "OTU_" followed by exactly four digits. */
  lemma OtuIdsWellFormed()
    ensures |OtuIds()| == 500
    ensures forall i, j :: 0 <= i < j < 500 ==> OtuIds()[i] != OtuIds()[j]
    ensures forall i :: 0 <= i < 500 ==>
      var id := OtuIds()[i];
      |id| == 8 && id[..4] == "OTU_" && AllDigits(id[4..]) && Value(id[4..]) == i
  {
    forall i, j | 0 <= i < j < 500 ensures OtuIds()[i] != OtuIds()[j] {
      FormatIdInjective("OTU_", 4, i, j);
    }
    forall i | 0 <= i < 500
      ensures var id := OtuIds()[i];
        |id| == 8 && id[..4] == "OTU_" && AllDigits(id[4..]) && Value(id[4..]) == i
    {
      FormatIdShape("OTU_", 4, i);
      assert Pow10(4) == 10000;
      ZeroPadExactWidth(i, 4);
    }
  }

  // ---------------------------------------------------------------------
  // Taxonomy strings
  // ---------------------------------------------------------------------

  const Phyla: seq<string> := ["Firmicutes", "Bacteroidetes", "Proteobacteria", "Actinobacteria"]
  const Classes: seq<string> := ["Clostridia", "Bacteroidia", "Gammaproteobacteria", "Actinobacteria"]
  const Orders: seq<string> := ["Clostridiales", "Bacteroidales", "Enterobacteriales", "Bifidobacteriales"]
  const Families: seq<string> := ["Lachnospiraceae", "Bacteroidaceae", "Enterobacteriaceae", "Bifidobacteriaceae"]
  const Genera: seq<string> := ["Roseburia", "Bacteroides", "Escherichia", "Bifidobacterium"]
  const Species: seq<string> := ["faecalis", "thetaiotaomicron", "coli", "longum"]

  /** The field prefixes of the seven ranks, kingdom to species. */
  const RankPrefixes: seq<string> := ["k__", "p__", "c__", "o__", "f__", "g__", "s__"]

  /** The vocabulary `np.random.choice` draws from for ranks 1 (phylum) to 6 (species). */
  function RankVocabulary(rank: nat): seq<string>
    requires 1 <= rank <= 6
  {
    match rank
    case 1 => Phyla
    case 2 => Classes
    case 3 => Orders
    case 4 => Families
    case 5 => Genera
    case _ => Species
  }

  /** An index into a four-word vocabulary: one `np.random.choice` draw. */
  type Choice4 = i: int | 0 <= i < 4

  /** The six draws made for one OTU. */
  datatype TaxonDraw = TaxonDraw(phylum: Choice4, class_: Choice4, order: Choice4, family: Choice4, genus: Choice4, species: Choice4)

  /** The word drawn for a rank, 1 (phylum) to 6 (species). */
  function RankWord(d: TaxonDraw, rank: nat): (w: string)
    requires 1 <= rank <= 6
    ensures w in RankVocabulary(rank)
  {
    match rank
    case 1 => Phyla[d.phylum]
    case 2 => Classes[d.class_]
    case 3 => Orders[d.order]
    case 4 => Families[d.family]
    case 5 => Genera[d.genus]
    case _ => Species[d.species]
  }

  /** The seven fields of a taxonomy string, kingdom to species. */
  function TaxonomyFields(d: TaxonDraw): (fields: seq<string>)
    ensures |fields| == 7 && fields[0] == "k__Bacteria"
    ensures forall rank :: 1 <= rank < 7 ==> fields[rank] == RankPrefixes[rank] + RankWord(d, rank)
  {
    ["k__Bacteria", "p__" + Phyla[d.phylum], "c__" + Classes[d.class_], "o__" + Orders[d.order],
     "f__" + Families[d.family], "g__" + Genera[d.genus], "s__" + Species[d.species]]
  }

  /**
   * The f-string `"k__Bacteria;p__{phylum};c__{class_};...;s__{sp}"`, which
   * is the seven fields joined by `;`.
   */
  function TaxonomyString(d: TaxonDraw): string
  {
    Join(TaxonomyFields(d), ';')
  }

  /** Seven `;`-separated fields, kingdom Bacteria, then each rank's prefix and a word of its vocabulary. */
  predicate WellFormedTaxonomy(t: string)
  {
    var fields := Split(t, ';');
    && |fields| == 7
    && fields[0] == "k__Bacteria"
    && forall rank :: 1 <= rank < 7 ==>
         |fields[rank]| >= 3 && fields[rank][..3] == RankPrefixes[rank] && fields[rank][3..] in RankVocabulary(rank)
  }

  /** No vocabulary word contains the field separator. */
  lemma VocabularyHasNoSeparator(rank: nat, w: string)
    requires 1 <= rank <= 6 && w in RankVocabulary(rank)
    ensures ';' !in w
  {
    match rank
    case 1 => assert w in Phyla;
    case 2 => assert w in Classes;
    case 3 => assert w in Orders;
    case 4 => assert w in Families;
    case 5 => assert w in Genera;
    case 6 => assert w in Species;
  }

  /** Splitting a taxonomy string at `;` gives back its seven fields. */
  lemma TaxonomyStringFields(d: TaxonDraw)
    ensures Split(TaxonomyString(d), ';') == TaxonomyFields(d)
  {
    var fields := TaxonomyFields(d);
    forall rank | 0 <= rank < 7 ensures ';' !in fields[rank] {
      if rank > 0 {
        VocabularyHasNoSeparator(rank, RankWord(d, rank));
        assert ';' !in RankPrefixes[rank];
      }
    }
    SplitJoin(fields, ';');
  }

  /** Every taxonomy string the generator builds is well formed. */
  lemma TaxonomyStringWellFormed(d: TaxonDraw)
    ensures WellFormedTaxonomy(TaxonomyString(d))
  {
    TaxonomyStringFields(d);
    var fields := TaxonomyFields(d);
    forall rank | 1 <= rank < 7
      ensures |fields[rank]| >= 3 && fields[rank][..3] == RankPrefixes[rank] && fields[rank][3..] in RankVocabulary(rank)
    {
      assert |RankPrefixes[rank]| == 3;
      assert fields[rank][3..] == RankWord(d, rank);
    }
  }

  /** The taxonomy column: one string per OTU, from that OTU's draws. */
  function TaxonomyAssignments(taxon: nat -> TaxonDraw): (assignments: seq<string>)
    ensures |assignments| == NumOtus
  {
    seq(NumOtus, i requires 0 <= i < NumOtus => TaxonomyString(taxon(i)))
  }

  /** The loop that appends one taxonomy string per OTU. */
  method AssignTaxonomy(taxon: nat -> TaxonDraw) returns (assignments: seq<string>)
    ensures assignments == TaxonomyAssignments(taxon)
    ensures forall i :: 0 <= i < |assignments| ==> WellFormedTaxonomy(assignments[i])
  {
    assignments := [];
    for i := 0 to NumOtus
      invariant |assignments| == i
      invariant forall k :: 0 <= k < i ==> assignments[k] == TaxonomyString(taxon(k))
      invariant forall k :: 0 <= k < i ==> WellFormedTaxonomy(assignments[k])
    {
      var taxString := TaxonomyString(taxon(i));
      TaxonomyStringWellFormed(taxon(i));
      assignments := assignments + [taxString];
    }
  }

  // ---------------------------------------------------------------------
  // Synthetic metadata
  // ---------------------------------------------------------------------

  const MetadataColumns: seq<string> :=
    ["age", "gender", "country", "sample_type", "diet_type", "coffee_consumption", "antibiotics_past_year", "bmi"]
  const Genders: seq<string> := ["male", "female"]
  const Countries: seq<string> := ["USA", "Canada", "UK", "Australia"]
  const DietTypes: seq<string> := ["Omnivore", "Vegetarian", "Vegan"]
  const CoffeeLevels: seq<string> := ["none", "occasional", "daily"]
  const AntibioticAnswers: seq<string> := ["Yes", "No"]

  /** `np.random.randint(18, 80)`: the upper bound is exclusive. */
  type Age = a: int | 18 <= a < 80 witness 18
  type Choice2 = i: int | 0 <= i < 2
  type Choice3 = i: int | 0 <= i < 3

  /** The draws made for one synthetic sample; `bmi` is the normal draw before `astype(int)`. */
  datatype MetadataDraw = MetadataDraw(
    age: Age, gender: Choice2, country: Choice4, diet: Choice3, coffee: Choice3, antibiotics: Choice2, bmi: real)

  /** All random input of one run. */
  datatype Draws = Draws(
    metadata: nat -> MetadataDraw,  // per sample
    count: (nat, nat) -> nat,       // per (OTU, sample): the negative-binomial count
    taxon: nat -> TaxonDraw)        // per OTU

  /** numpy's `astype(int)` on a float: truncation toward zero. */
  function TruncateTowardZero(x: real): (r: int)
    ensures 0.0 <= x ==> 0 <= r && r as real <= x < r as real + 1.0
    ensures x < 0.0 ==> r <= 0 && r as real - 1.0 < x <= r as real
  {
    if x >= 0.0 then x.Floor else -((-x).Floor)
  }

  function SyntheticRow(sampleId: string, d: MetadataDraw): Row
  {
    Row(sampleId, [IntCell(d.age), TextCell(Genders[d.gender]), TextCell(Countries[d.country]), TextCell("Stool"),
                   TextCell(DietTypes[d.diet]), TextCell(CoffeeLevels[d.coffee]),
                   TextCell(AntibioticAnswers[d.antibiotics]), IntCell(TruncateTowardZero(d.bmi))])
  }

  function SyntheticMetadata(n: nat, metadata: nat -> MetadataDraw): Metadata
  {
    Metadata("#SampleID", MetadataColumns, seq(n, i requires 0 <= i < n => SyntheticRow(FormatId("Sample_", 5, i), metadata(i))))
  }

  /** Synthetic rows follow the generator's ranges: ages 18..79, fixed vocabularies, sample type Stool. */
  lemma SyntheticMetadataRanges(n: nat, metadata: nat -> MetadataDraw, i: nat)
    requires i < n
    ensures var row := SyntheticMetadata(n, metadata).rows[i];
      && |row.cells| == |MetadataColumns|
      && row.cells[0].IntCell? && 18 <= row.cells[0].i < 80
      && row.cells[1].TextCell? && row.cells[1].s in Genders
      && row.cells[2].TextCell? && row.cells[2].s in Countries
      && row.cells[3] == TextCell("Stool")
      && row.cells[4].TextCell? && row.cells[4].s in DietTypes
      && row.cells[5].TextCell? && row.cells[5].s in CoffeeLevels
      && row.cells[6].TextCell? && row.cells[6].s in AntibioticAnswers
  {
    var d := metadata(i);
    assert SyntheticMetadata(n, metadata).rows[i] == SyntheticRow(FormatId("Sample_", 5, i), d);
  }

  // ---------------------------------------------------------------------
  // Feature table and datasets
  // ---------------------------------------------------------------------

  /** `pd.DataFrame(feature_data, index=otu_ids, columns=sample_ids)` over the drawn counts. */
  function BuildFeatureTable(otuIds: seq<string>, sampleIds: seq<string>, count: (nat, nat) -> nat): (t: FeatureTable)
    ensures WellShaped(t) && t.otuIds == otuIds && t.sampleIds == sampleIds
  {
    FeatureTable("#OTU ID", otuIds, sampleIds,
      seq(|otuIds|, i requires 0 <= i < |otuIds| => seq(|sampleIds|, j requires 0 <= j < |sampleIds| => count(i, j))))
  }

  function BuildTaxonomyTable(assignments: seq<string>): TaxonomyTable
  {
    TaxonomyTable("#OTU ID", "Taxonomy", OtuIds(), assignments)
  }

  /**
   * The three tables agree: feature columns are the metadata index in order,
   * feature rows and taxonomy rows are the same 500 OTU identifiers, and
   * every taxonomy string is well formed.
   */
  predicate Consistent(d: Dataset)
  {
    && WellShaped(d.features)
    && d.features.sampleIds == SampleIndex(d.metadata)
    && d.features.otuIds == OtuIds()
    && d.taxonomy.otuIds == d.features.otuIds
    && |d.taxonomy.assignments| == |d.taxonomy.otuIds|
    && forall i :: 0 <= i < |d.taxonomy.assignments| ==> WellFormedTaxonomy(d.taxonomy.assignments[i])
  }

  /** What create_sample_data returns. */
  function SyntheticDataset(n: nat, draws: Draws): Dataset
  {
    var metadata := SyntheticMetadata(n, draws.metadata);
    Dataset(metadata, BuildFeatureTable(OtuIds(), SampleIds(n), draws.count),
            BuildTaxonomyTable(TaxonomyAssignments(draws.taxon)))
  }

  /** What the fetched branch of download_agp_sample builds around the fetched metadata. */
  function FetchedDataset(metadata: Metadata, draws: Draws): Dataset
  {
    Dataset(metadata, BuildFeatureTable(OtuIds(), SampleIndex(metadata), draws.count),
            BuildTaxonomyTable(TaxonomyAssignments(draws.taxon)))
  }

  lemma TaxonomyAssignmentsWellFormed(taxon: nat -> TaxonDraw)
    ensures forall i :: 0 <= i < NumOtus ==> WellFormedTaxonomy(TaxonomyAssignments(taxon)[i])
  {
    forall i | 0 <= i < NumOtus ensures WellFormedTaxonomy(TaxonomyAssignments(taxon)[i]) {
      TaxonomyStringWellFormed(taxon(i));
    }
  }

  /** The synthetic tables are consistent and indexed by the n sample identifiers. */
  lemma SyntheticDatasetConsistent(n: nat, draws: Draws)
    ensures Consistent(SyntheticDataset(n, draws))
    ensures SampleIndex(SyntheticDataset(n, draws).metadata) == SampleIds(n)
  {
    var metadata := SyntheticDataset(n, draws).metadata;
    forall i | 0 <= i < n ensures SampleIndex(metadata)[i] == SampleIds(n)[i] {
      assert metadata.rows[i] == SyntheticRow(FormatId("Sample_", 5, i), draws.metadata(i));
    }
    assert SampleIndex(metadata) == SampleIds(n);
    TaxonomyAssignmentsWellFormed(draws.taxon);
  }

  /** The tables built around fetched metadata are consistent, whatever was fetched. */
  lemma FetchedDatasetConsistent(metadata: Metadata, draws: Draws)
    ensures Consistent(FetchedDataset(metadata, draws))
  {
    TaxonomyAssignmentsWellFormed(draws.taxon);
  }

  /** create_sample_data. */
  method CreateSampleData(n: nat, draws: Draws) returns (data: Dataset)
    ensures data == SyntheticDataset(n, draws)
    ensures Consistent(data) && SampleIndex(data.metadata) == SampleIds(n)
  {
    var sampleIds := SampleIds(n);
    var metadata := SyntheticMetadata(n, draws.metadata);
    var otuIds := OtuIds();
    var featureTable := BuildFeatureTable(otuIds, sampleIds, draws.count);
    var assignments := AssignTaxonomy(draws.taxon);
    data := Dataset(metadata, featureTable, BuildTaxonomyTable(assignments));
    SyntheticDatasetConsistent(n, draws);
  }

  // ---------------------------------------------------------------------
  // Credentials and the authenticated fetch
  // ---------------------------------------------------------------------

  /** `os.getenv(name)`. */
  function GetEnv(env: map<string, string>, name: string): (r: Option<string>)
    ensures r.Some? <==> name in env
    ensures r.Some? ==> r.value == env[name]
  {
    if name in env then Some(env[name]) else None
  }

  /** Python truthiness of an optional string: present and non-empty. */
  predicate Truthy(v: Option<string>)
  {
    v.Some? && v.value != ""
  }

  /** get_qiita_credentials: both values, or (None, None) unless both are set and non-empty. */
  function GetQiitaCredentials(env: map<string, string>): (r: (Option<string>, Option<string>))
    ensures r.0.Some? <==> r.1.Some?
    ensures r.0.Some? <==>
      UsernameVariable in env && env[UsernameVariable] != "" && PasswordVariable in env && env[PasswordVariable] != ""
    ensures r.0.Some? ==> r.0.value == env[UsernameVariable] && r.1.value == env[PasswordVariable]
  {
    var username := GetEnv(env, UsernameVariable);
    var password := GetEnv(env, PasswordVariable);
    if Truthy(username) && Truthy(password) then (username, password) else (None, None)
  }

  /** Both credentials are set and non-empty. */
  predicate CredentialsFound(env: map<string, string>)
  {
    GetQiitaCredentials(env).0.Some?
  }

  datatype Request = Request(url: string, username: string, password: string, timeoutSeconds: nat)

  /** The outcome of `requests.get`: an exception, or a status code and the body parsed as a TSV (None if that raised). */
  datatype HttpOutcome = Raised | Response(statusCode: int, body: Option<Metadata>)

  /** `f"{QIITA_BASE_URL}/study/{study_id}/metadata"`. */
  function Endpoint(studyId: nat): string
  {
    QiitaBaseUrl + "/study/" + Digits(studyId) + "/metadata"
  }

  /** The American Gut study's metadata endpoint. */
  lemma AgpEndpoint()
    ensures Endpoint(StudyId) == "https://qiita.ucsd.edu/api/v1/study/10317/metadata"
  {
    StudyIdDigits();
  }

  /** `str(10317)`. */
  lemma StudyIdDigits()
    ensures Digits(StudyId) == "10317"
  {
    assert Digits(10) == "10";
    assert Digits(103) == "103";
    assert Digits(1031) == "1031";
  }

  /** The one request fetch_samples_with_auth makes: basic auth and a 30-second timeout. */
  function QiitaRequest(username: string, password: string, studyId: nat): Request
  {
    Request(Endpoint(studyId), username, password, RequestTimeoutSeconds)
  }

  /** The metadata a 200 response carries, when it parsed. */
  predicate ParsedOk(outcome: HttpOutcome)
  {
    outcome.Response? && outcome.statusCode == 200 && outcome.body.Some?
  }

  /** `df.sample(n=limit, random_state=42)` is abstracted as `limit` distinct row positions. */
  predicate SampleFits(outcome: HttpOutcome, limit: nat, pick: seq<nat>)
  {
    ParsedOk(outcome) && |outcome.body.value.rows| > limit ==>
      |pick| == limit && DistinctBelow(pick, |outcome.body.value.rows|)
  }

  /**
   * fetch_samples_with_auth: a table only on status 200 (and a body that
   * parses); 401, any other status and any exception give None. A table
   * longer than `limit` is cut to `limit` sampled rows.
   */
  function FetchSamplesWithAuth(
    username: string, password: string, studyId: nat, limit: nat, http: Request -> HttpOutcome, pick: seq<nat>)
    : (r: Option<Metadata>)
    requires SampleFits(http(QiitaRequest(username, password, studyId)), limit, pick)
    ensures r.Some? <==> ParsedOk(http(QiitaRequest(username, password, studyId)))
    ensures r.Some? ==>
      var fetched := http(QiitaRequest(username, password, studyId)).body.value;
      && r.value.indexName == fetched.indexName && r.value.columns == fetched.columns
      && |r.value.rows| == (if |fetched.rows| > limit then limit else |fetched.rows|)
  {
    match http(QiitaRequest(username, password, studyId))
    case Raised => None
    case Response(statusCode, body) =>
      if statusCode == 200 then
        match body
        case None => None
        case Some(df) =>
          if |df.rows| > limit then Some(df.(rows := Pick(df.rows, pick))) else Some(df)
      else if statusCode == 401 then None
      else None
  }

  /**
   * The row limit: the result has min(rows, limit) rows with the fetched
   * header; a short table is returned unchanged, a long one is cut to a
   * sub-multiset of its rows.
   */
  lemma FetchRowLimit(
    username: string, password: string, studyId: nat, limit: nat, http: Request -> HttpOutcome, pick: seq<nat>)
    requires SampleFits(http(QiitaRequest(username, password, studyId)), limit, pick)
    requires ParsedOk(http(QiitaRequest(username, password, studyId)))
    ensures var fetched := http(QiitaRequest(username, password, studyId)).body.value;
      var r := FetchSamplesWithAuth(username, password, studyId, limit, http, pick).value;
      && r.indexName == fetched.indexName && r.columns == fetched.columns
      && |r.rows| == (if |fetched.rows| > limit then limit else |fetched.rows|)
      && (|fetched.rows| <= limit ==> r == fetched)
      && multiset(r.rows) <= multiset(fetched.rows)
  {
    var fetched := http(QiitaRequest(username, password, studyId)).body.value;
    if |fetched.rows| > limit {
      PickDistinctIsSubMultiset(fetched.rows, pick);
    }
  }

  // ---------------------------------------------------------------------
  // download_agp_sample
  // ---------------------------------------------------------------------

  /** What `metadata` holds after the authentication block of download_agp_sample. */
  function AuthenticatedMetadata(
    nSamples: nat, useAuth: bool, env: map<string, string>, http: Request -> HttpOutcome, pick: seq<nat>)
    : (r: Option<Metadata>)
    requires CredentialsFound(env) ==>
      SampleFits(http(QiitaRequest(env[UsernameVariable], env[PasswordVariable], StudyId)), nSamples, pick)
    ensures r.Some? <==>
      useAuth && CredentialsFound(env) && ParsedOk(http(QiitaRequest(env[UsernameVariable], env[PasswordVariable], StudyId)))
  {
    if useAuth && CredentialsFound(env) then
      FetchSamplesWithAuth(env[UsernameVariable], env[PasswordVariable], StudyId, nSamples, http, pick)
    else None
  }

  /**
   * download_agp_sample without the file writes: returns the three tables
   * it would write, the requests it made and whether it fell back to
   * synthetic data.
   */
  method DownloadAgpSample(
    nSamples: nat, useAuth: bool, env: map<string, string>, http: Request -> HttpOutcome, draws: Draws, pick: seq<nat>)
    returns (data: Dataset, requests: seq<Request>, synthetic: bool)
    requires CredentialsFound(env) ==>
      SampleFits(http(QiitaRequest(env[UsernameVariable], env[PasswordVariable], StudyId)), nSamples, pick)
    ensures requests == if useAuth && CredentialsFound(env)
                        then [QiitaRequest(env[UsernameVariable], env[PasswordVariable], StudyId)] else []
    ensures synthetic <==> !useAuth || !CredentialsFound(env) || AuthenticatedMetadata(nSamples, useAuth, env, http, pick).None?
    ensures synthetic ==> data == SyntheticDataset(nSamples, draws)
    ensures !synthetic ==> data == FetchedDataset(AuthenticatedMetadata(nSamples, useAuth, env, http, pick).value, draws)
    ensures Consistent(data)
  {
    requests := [];
    var metadata: Option<Metadata> := None;
    if useAuth {
      var (username, password) := GetQiitaCredentials(env);
      if Truthy(username) && Truthy(password) {
        requests := requests + [QiitaRequest(username.value, password.value, StudyId)];
        metadata := FetchSamplesWithAuth(username.value, password.value, StudyId, nSamples, http, pick);
      }
    }
    if metadata.None? {
      synthetic := true;
      data := CreateSampleData(nSamples, draws);
    } else {
      synthetic := false;
      var sampleIds := SampleIndex(metadata.value);
      var otuIds := OtuIds();
      var featureTable := BuildFeatureTable(otuIds, sampleIds, draws.count);
      var assignments := AssignTaxonomy(draws.taxon);
      data := Dataset(metadata.value, featureTable, BuildTaxonomyTable(assignments));
      FetchedDatasetConsistent(metadata.value, draws);
    }
  }

  /** Without credentials (or with use_auth off) no request is made and the synthetic data is used. */
  lemma NoCredentialsMeansSynthetic(
    nSamples: nat, useAuth: bool, env: map<string, string>, http: Request -> HttpOutcome, pick: seq<nat>)
    requires CredentialsFound(env) ==>
      SampleFits(http(QiitaRequest(env[UsernameVariable], env[PasswordVariable], StudyId)), nSamples, pick)
    requires !useAuth || !CredentialsFound(env)
    ensures AuthenticatedMetadata(nSamples, useAuth, env, http, pick).None?
  {
  }

  /** A non-200 answer, or an exception, leaves no fetched metadata: download_agp_sample falls back. */
  lemma Non200MeansSynthetic(
    nSamples: nat, env: map<string, string>, http: Request -> HttpOutcome, pick: seq<nat>)
    requires CredentialsFound(env)
    requires SampleFits(http(QiitaRequest(env[UsernameVariable], env[PasswordVariable], StudyId)), nSamples, pick)
    requires var outcome := http(QiitaRequest(env[UsernameVariable], env[PasswordVariable], StudyId));
      outcome.Raised? || outcome.statusCode != 200
    ensures AuthenticatedMetadata(nSamples, true, env, http, pick).None?
  {
  }
}
