/** The aggregation of the transformer service (`_transform_data`): one
    pass over the stored articles, from empty maps, counting articles per
    publication year, month and date, per source and author, and per search
    term and period. The first article whose date does not parse raises,
    and the partial counts are lost with it. */
module Aggregation {
  import opened Results
  import opened Crawler
  import opened Dates
  import opened Sums

  type Counts = map<string, nat>

  /** The three granularities, keyed "year", "month" and "date". */
  datatype Period = Year | Month | Day

  datatype Periods = Periods(year: Counts, month: Counts, date: Counts) {
    function Of(p: Period): Counts {
      match p
      case Year => year
      case Month => month
      case Day => date
    }
  }

  /** The insights document: `news_count_period`, `news_count_source` and
      `keyword_count_period`. */
  datatype Report = Report(
    newsCountPeriod: Periods,
    newsCountSource: map<string, Counts>,
    keywordCountPeriod: map<string, Periods>)

  const NoPeriods := Periods(map[], map[], map[])
  const EmptyReport := Report(NoPeriods, map[], map[])
  const Unknown := "Unknown"

  function OrUnknown(s: Option<string>): string {
    if s.Some? then s.value else Unknown
  }

  /** What one article contributes: its term, its three period keys, and
      its source and author with `None` read as "Unknown". */
  datatype Fact = Fact(term: string, year: string, month: string, date: string, source: string, author: string) {
    function Key(p: Period): string {
      match p
      case Year => year
      case Month => month
      case Day => date
    }
  }

  function FactOf(a: Article, d: Date): Fact
    requires ValidDate(d)
  {
    Fact(a.searchTerm, YearKey(d), MonthKey(d), DateKey(d), OrUnknown(a.raw.source.name), OrUnknown(a.raw.author))
  }

  /** The date of an article: `strptime(publishedAt.split("T")[0], "%Y-%m-%d")`. */
  function PublishedOn(a: Article): Result<Date> {
    ParseDate(DatePart(a.raw.publishedAt))
  }

  function BumpPeriods(ps: Periods, f: Fact): Periods {
    Periods(Bump(ps.year, f.year), Bump(ps.month, f.month), Bump(ps.date, f.date))
  }

  /** The counter updates of one loop iteration. */
  function Record(r: Report, f: Fact): Report {
    var kcp := r.keywordCountPeriod;
    var ps := if f.term in kcp then kcp[f.term] else NoPeriods;
    var ncs := r.newsCountSource;
    var authors := if f.source in ncs then ncs[f.source] else map[];
    Report(
      BumpPeriods(r.newsCountPeriod, f),
      ncs[f.source := Bump(authors, f.author)],
      kcp[f.term := BumpPeriods(ps, f)])
  }

  /** One iteration. The source creates the term's entry before parsing the
      date; a failed parse discards the whole dictionary, so recording after
      the parse gives the same observable result. */
  function Step(r: Report, a: Article): Result<Report> {
    match PublishedOn(a)
    case Err(e) => Err(e)
    case Ok(d) => Ok(Record(r, FactOf(a, d)))
  }

  /** The loop over `read_data()`. */
  function TransformFrom(r: Report, docs: seq<Article>): Result<Report>
    decreases |docs|
  {
    if docs == [] then Ok(r)
    else
      match Step(r, docs[0])
      case Err(e) => Err(e)
      case Ok(next) => TransformFrom(next, docs[1..])
  }

  /** `_transform_data`: always from empty maps. */
  function TransformData(docs: seq<Article>): Result<Report> {
    TransformFrom(EmptyReport, docs)
  }

  // ---------------------------------------------------------------------
  // Reference definitions

  /** `docs[i]` is the first article whose date does not parse. */
  predicate FirstBadDate(docs: seq<Article>, i: int) {
    0 <= i < |docs| && PublishedOn(docs[i]).Err? && forall j :: 0 <= j < i ==> PublishedOn(docs[j]).Ok?
  }

  /** The facts of all articles, or the error of the first article whose
      date does not parse. */
  lemma FirstBadDateCons(docs: seq<Article>, k: int)
    requires docs != [] && PublishedOn(docs[0]).Ok? && FirstBadDate(docs[1..], k)
    ensures FirstBadDate(docs, k + 1) && docs[k + 1] == docs[1..][k]
  {
    forall j | 0 <= j < k + 1 ensures PublishedOn(docs[j]).Ok? {
      if j > 0 {
        assert docs[j] == docs[1..][j - 1];
      }
    }
  }

  /** `f` is what article `a` contributes. */
  predicate FactFor(a: Article, f: Fact) {
    PublishedOn(a).Ok? && f == FactOf(a, PublishedOn(a).value)
  }

  function Facts(docs: seq<Article>): (r: Result<seq<Fact>>)
    ensures r.Ok? ==> |r.value| == |docs|
    ensures r.Ok? ==> forall i :: 0 <= i < |docs| ==> FactFor(docs[i], r.value[i])
    ensures r.Ok? <==> forall i :: 0 <= i < |docs| ==> PublishedOn(docs[i]).Ok?
    ensures r.Err? ==> exists i :: FirstBadDate(docs, i) && r.error == BadDate(DatePart(docs[i].raw.publishedAt))
    decreases |docs|
  {
    if docs == [] then Ok([])
    else
      match PublishedOn(docs[0])
      case Err(e) =>
        assert FirstBadDate(docs, 0);
        Err(e)
      case Ok(d) =>
        match Facts(docs[1..])
        case Err(e) =>
          var k :| FirstBadDate(docs[1..], k) && e == BadDate(DatePart(docs[1..][k].raw.publishedAt));
          FirstBadDateCons(docs, k);
          Err(e)
        case Ok(fs) =>
          PointwiseCons(docs, FactOf(docs[0], d), fs, FactFor);
          Ok([FactOf(docs[0], d)] + fs)
  }

  /** A relation that holds pointwise between the tails, and between the
      heads, holds pointwise between the whole sequences. */
  lemma PointwiseCons<A, B>(xs: seq<A>, y: B, ys: seq<B>, rel: (A, B) -> bool)
    requires xs != [] && |ys| == |xs| - 1 && rel(xs[0], y)
    requires forall i :: 0 <= i < |ys| ==> rel(xs[1..][i], ys[i])
    ensures forall i :: 0 <= i < |xs| ==> rel(xs[i], ([y] + ys)[i])
  {
    forall i | 0 <= i < |xs| ensures rel(xs[i], ([y] + ys)[i]) {
      if i > 0 {
        assert xs[i] == xs[1..][i - 1] && ([y] + ys)[i] == ys[i - 1];
      }
    }
  }

  /** Recording facts one after another, left to right. */
  function RecordAll(r: Report, fs: seq<Fact>): Report
    decreases |fs|
  {
    if fs == [] then r else RecordAll(Record(r, fs[0]), fs[1..])
  }

  /** The loop succeeds exactly when every date parses, and then it records
      the articles' facts in order. */
  lemma {:induction false} TransformFromFacts(r: Report, docs: seq<Article>)
    ensures TransformFrom(r, docs) == match Facts(docs)
      case Err(e) => Err(e)
      case Ok(fs) => Ok(RecordAll(r, fs))
    decreases |docs|
  {
    if docs != [] {
      match PublishedOn(docs[0])
      case Err(e) =>
      case Ok(d) =>
        var next := Record(r, FactOf(docs[0], d));
        TransformFromFacts(next, docs[1..]);
        match Facts(docs[1..])
        case Err(e) =>
        case Ok(fs) =>
          assert ([FactOf(docs[0], d)] + fs)[1..] == fs;
    }
  }

  // ---------------------------------------------------------------------
  // Totals

  /** What a term's counters add up to, zero for a term not seen. */
  ghost function TermTotal(r: Report, t: string, p: Period): nat {
    if t in r.keywordCountPeriod then Total(r.keywordCountPeriod[t].Of(p)) else 0
  }

  /** How many facts carry the term. */
  function CountTerm(fs: seq<Fact>, t: string): (n: nat)
    ensures n <= |fs|
  {
    if fs == [] then 0 else (if fs[0].term == t then 1 else 0) + CountTerm(fs[1..], t)
  }

  lemma BumpPeriodsTotal(ps: Periods, f: Fact, p: Period)
    ensures Total(BumpPeriods(ps, f).Of(p)) == Total(ps.Of(p)) + 1
  {
    BumpTotal(ps.Of(p), f.Key(p));
  }

  /** One recorded fact adds one to every period total, to the source
      total, and to the period totals of its own term only. */
  lemma RecordTotals(r: Report, f: Fact, p: Period, t: string)
    ensures Total(Record(r, f).newsCountPeriod.Of(p)) == Total(r.newsCountPeriod.Of(p)) + 1
    ensures NestedTotal(Record(r, f).newsCountSource) == NestedTotal(r.newsCountSource) + 1
    ensures TermTotal(Record(r, f), t, p) == TermTotal(r, t, p) + (if f.term == t then 1 else 0)
  {
    BumpPeriodsTotal(r.newsCountPeriod, f, p);
    BumpNestedTotal(r.newsCountSource, f.source, f.author);
    if f.term == t {
      var kcp := r.keywordCountPeriod;
      var ps := if t in kcp then kcp[t] else NoPeriods;
      BumpPeriodsTotal(ps, f, p);
      assert Total(NoPeriods.Of(p)) == 0;
    }
  }

  lemma {:induction false} RecordAllTotals(r: Report, fs: seq<Fact>, p: Period, t: string)
    ensures Total(RecordAll(r, fs).newsCountPeriod.Of(p)) == Total(r.newsCountPeriod.Of(p)) + |fs|
    ensures NestedTotal(RecordAll(r, fs).newsCountSource) == NestedTotal(r.newsCountSource) + |fs|
    ensures TermTotal(RecordAll(r, fs), t, p) == TermTotal(r, t, p) + CountTerm(fs, t)
    decreases |fs|
  {
    if fs != [] {
      RecordTotals(r, fs[0], p, t);
      RecordAllTotals(Record(r, fs[0]), fs[1..], p, t);
    }
  }

  function CountTermDocs(docs: seq<Article>, t: string): (n: nat)
    ensures n <= |docs|
  {
    if docs == [] then 0 else (if docs[0].searchTerm == t then 1 else 0) + CountTermDocs(docs[1..], t)
  }

  lemma {:induction false} CountTermOfFacts(docs: seq<Article>, t: string)
    requires Facts(docs).Ok?
    ensures CountTerm(Facts(docs).value, t) == CountTermDocs(docs, t)
    decreases |docs|
  {
    if docs != [] {
      CountTermOfFacts(docs[1..], t);
      assert Facts(docs).value[1..] == Facts(docs[1..]).value;
    }
  }

  /** For each of year, month and date the counts add up to the number of
      articles; so do the counts per source and author; and each term's
      counts add up to the number of articles with that term. */
  lemma TransformTotals(docs: seq<Article>, p: Period, t: string)
    requires TransformData(docs).Ok?
    ensures var r := TransformData(docs).value;
      && Total(r.newsCountPeriod.Of(p)) == |docs|
      && NestedTotal(r.newsCountSource) == |docs|
      && TermTotal(r, t, p) == CountTermDocs(docs, t)
  {
    TransformFromFacts(EmptyReport, docs);
    var fs := Facts(docs).value;
    RecordAllTotals(EmptyReport, fs, p, t);
    CountTermOfFacts(docs, t);
    assert Total(EmptyReport.newsCountPeriod.Of(p)) == 0;
    assert NestedTotal(EmptyReport.newsCountSource) == 0;
  }

  // ---------------------------------------------------------------------
  // Exact counts

  /** `m` counts the elements of `M`: its keys are the elements, its values
      their multiplicities. */
  ghost predicate Represents(m: Counts, M: multiset<string>) {
    && (forall k :: k in m <==> k in M)
    && (forall k :: k in m ==> m[k] == M[k])
  }

  /** `m[o][i]` counts the pair `(o, i)` in `P`, and no inner map is empty. */
  ghost predicate RepresentsNested(m: map<string, Counts>, P: multiset<(string, string)>) {
    && (forall o, i :: (o, i) in P ==> o in m && i in m[o])
    && (forall o, i :: o in m && i in m[o] ==> (o, i) in P && m[o][i] == P[(o, i)])
    && (forall o :: o in m ==> m[o] != map[])
  }

  function Keys(fs: seq<Fact>, p: Period): (r: seq<string>)
    ensures |r| == |fs| && forall i :: 0 <= i < |fs| ==> r[i] == fs[i].Key(p)
  {
    seq(|fs|, i requires 0 <= i < |fs| => fs[i].Key(p))
  }

  function SourceAuthors(fs: seq<Fact>): (r: seq<(string, string)>)
    ensures |r| == |fs| && forall i :: 0 <= i < |fs| ==> r[i] == (fs[i].source, fs[i].author)
  {
    seq(|fs|, i requires 0 <= i < |fs| => (fs[i].source, fs[i].author))
  }

  function TermKeys(fs: seq<Fact>, p: Period): (r: seq<(string, string)>)
    ensures |r| == |fs| && forall i :: 0 <= i < |fs| ==> r[i] == (fs[i].term, fs[i].Key(p))
  {
    seq(|fs|, i requires 0 <= i < |fs| => (fs[i].term, fs[i].Key(p)))
  }

  /** The counters of one granularity, per term. */
  function Column(kcp: map<string, Periods>, p: Period): (c: map<string, Counts>)
    ensures c.Keys == kcp.Keys
    ensures forall t :: t in kcp ==> c[t] == kcp[t].Of(p)
  {
    map t | t in kcp :: kcp[t].Of(p)
  }

  /** The report counts exactly the facts. */
  ghost predicate Describes(r: Report, fs: seq<Fact>) {
    && (forall p: Period :: Represents(r.newsCountPeriod.Of(p), multiset(Keys(fs, p))))
    && RepresentsNested(r.newsCountSource, multiset(SourceAuthors(fs)))
    && (forall p: Period :: RepresentsNested(Column(r.keywordCountPeriod, p), multiset(TermKeys(fs, p))))
  }

  lemma BumpRepresents(m: Counts, M: multiset<string>, k: string)
    requires Represents(m, M)
    ensures Represents(Bump(m, k), M + multiset{k})
  {
  }

  lemma BumpNestedRepresents(m: map<string, Counts>, P: multiset<(string, string)>, o: string, i: string)
    requires RepresentsNested(m, P)
    ensures var base := if o in m then m[o] else map[];
      RepresentsNested(m[o := Bump(base, i)], P + multiset{(o, i)})
  {
    var base := if o in m then m[o] else map[];
    var m' := m[o := Bump(base, i)];
    var P' := P + multiset{(o, i)};
    forall o2, i2 | (o2, i2) in P' ensures o2 in m' && i2 in m'[o2] {
      if (o2, i2) != (o, i) {
        assert (o2, i2) in P;
      }
    }
    forall o2, i2 | o2 in m' && i2 in m'[o2] ensures (o2, i2) in P' && m'[o2][i2] == P'[(o2, i2)] {
      if o2 == o && i2 == i {
        assert P'[(o, i)] == P[(o, i)] + 1;
      } else {
        assert P'[(o2, i2)] == P[(o2, i2)];
        if o2 == o {
          assert i2 in base && m'[o2][i2] == base[i2];
        }
      }
    }
    assert i in m'[o];
  }

  lemma ColumnAfterRecord(r: Report, f: Fact, p: Period)
    ensures var kcp := r.keywordCountPeriod;
      var base := if f.term in kcp then kcp[f.term].Of(p) else map[];
      Column(Record(r, f).keywordCountPeriod, p) == Column(kcp, p)[f.term := Bump(base, f.Key(p))]
  {
  }

  lemma ColumnBase(r: Report, f: Fact, p: Period)
    ensures var kcp := r.keywordCountPeriod;
      (if f.term in kcp then kcp[f.term].Of(p) else map[])
        == (if f.term in Column(kcp, p) then Column(kcp, p)[f.term] else map[])
  {
  }

  lemma KeysSnoc(fs: seq<Fact>, f: Fact, p: Period)
    ensures multiset(Keys(fs + [f], p)) == multiset(Keys(fs, p)) + multiset{f.Key(p)}
    ensures multiset(SourceAuthors(fs + [f])) == multiset(SourceAuthors(fs)) + multiset{(f.source, f.author)}
    ensures multiset(TermKeys(fs + [f], p)) == multiset(TermKeys(fs, p)) + multiset{(f.term, f.Key(p))}
  {
    assert Keys(fs + [f], p) == Keys(fs, p) + [f.Key(p)];
    assert SourceAuthors(fs + [f]) == SourceAuthors(fs) + [(f.source, f.author)];
    assert TermKeys(fs + [f], p) == TermKeys(fs, p) + [(f.term, f.Key(p))];
  }

  lemma RecordPeriodCounts(r: Report, fs: seq<Fact>, f: Fact, p: Period)
    requires Represents(r.newsCountPeriod.Of(p), multiset(Keys(fs, p)))
    ensures Represents(Record(r, f).newsCountPeriod.Of(p), multiset(Keys(fs + [f], p)))
  {
    KeysSnoc(fs, f, p);
    BumpRepresents(r.newsCountPeriod.Of(p), multiset(Keys(fs, p)), f.Key(p));
    BumpPeriodsOf(r.newsCountPeriod, f, p);
  }

  lemma BumpPeriodsOf(ps: Periods, f: Fact, p: Period)
    ensures BumpPeriods(ps, f).Of(p) == Bump(ps.Of(p), f.Key(p))
  {
  }

  lemma RecordTermCounts(r: Report, fs: seq<Fact>, f: Fact, p: Period)
    requires RepresentsNested(Column(r.keywordCountPeriod, p), multiset(TermKeys(fs, p)))
    ensures RepresentsNested(Column(Record(r, f).keywordCountPeriod, p), multiset(TermKeys(fs + [f], p)))
  {
    KeysSnoc(fs, f, p);
    ColumnAfterRecord(r, f, p);
    ColumnBase(r, f, p);
    BumpNestedRepresents(Column(r.keywordCountPeriod, p), multiset(TermKeys(fs, p)), f.term, f.Key(p));
  }

  lemma RecordDescribes(r: Report, fs: seq<Fact>, f: Fact)
    requires Describes(r, fs)
    ensures Describes(Record(r, f), fs + [f])
  {
    forall p: Period
      ensures Represents(Record(r, f).newsCountPeriod.Of(p), multiset(Keys(fs + [f], p)))
      ensures RepresentsNested(Column(Record(r, f).keywordCountPeriod, p), multiset(TermKeys(fs + [f], p)))
    {
      RecordPeriodCounts(r, fs, f, p);
      RecordTermCounts(r, fs, f, p);
    }
    KeysSnoc(fs, f, Year);
    BumpNestedRepresents(r.newsCountSource, multiset(SourceAuthors(fs)), f.source, f.author);
  }

  lemma {:induction false} RecordAllDescribes(r: Report, done: seq<Fact>, fs: seq<Fact>)
    requires Describes(r, done)
    ensures Describes(RecordAll(r, fs), done + fs)
    decreases |fs|
  {
    if fs == [] {
      assert done + fs == done;
    } else {
      var done' := done + [fs[0]];
      assert done' + fs[1..] == done + fs;
      RecordDescribes(r, done, fs[0]);
      RecordAllDescribes(Record(r, fs[0]), done', fs[1..]);
    }
  }

  lemma EmptyDescribes()
    ensures Describes(EmptyReport, [])
  {
    forall p: Period ensures Keys([], p) == [] && TermKeys([], p) == [] {
    }
    assert SourceAuthors([]) == [];
  }

  /** The report of a successful run counts exactly the stored articles'
      facts: every key present is a key some article produced, and its
      count is how many articles produced it. */
  lemma TransformDescribes(docs: seq<Article>)
    requires TransformData(docs).Ok?
    ensures Facts(docs).Ok? && Describes(TransformData(docs).value, Facts(docs).value)
  {
    TransformFromFacts(EmptyReport, docs);
    var fs := Facts(docs).value;
    EmptyDescribes();
    RecordAllDescribes(EmptyReport, [], fs);
    assert [] + fs == fs;
  }

  lemma DescribedTerms(r: Report, fs: seq<Fact>, t: string)
    requires Describes(r, fs)
    ensures t in r.keywordCountPeriod <==> exists i :: 0 <= i < |fs| && fs[i].term == t
  {
    var col := Column(r.keywordCountPeriod, Year);
    var M := multiset(TermKeys(fs, Year));
    assert RepresentsNested(col, M);
    if t in r.keywordCountPeriod {
      assert col[t] != map[];
      var k :| k in col[t];
      assert (t, k) in M;
      assert (t, k) in TermKeys(fs, Year);
      var i :| 0 <= i < |fs| && TermKeys(fs, Year)[i] == (t, k);
      assert fs[i].term == t;
    }
    if i :| 0 <= i < |fs| && fs[i].term == t {
      assert TermKeys(fs, Year)[i] in M;
    }
  }

  lemma DescribedPositive(r: Report, fs: seq<Fact>)
    requires Describes(r, fs)
    ensures forall p: Period, k :: k in r.newsCountPeriod.Of(p) ==> r.newsCountPeriod.Of(p)[k] >= 1
    ensures forall o, a :: o in r.newsCountSource && a in r.newsCountSource[o] ==> r.newsCountSource[o][a] >= 1
    ensures forall t, p: Period, k :: t in r.keywordCountPeriod && k in r.keywordCountPeriod[t].Of(p) ==>
      r.keywordCountPeriod[t].Of(p)[k] >= 1
  {
    forall t, p: Period, k | t in r.keywordCountPeriod && k in r.keywordCountPeriod[t].Of(p)
      ensures r.keywordCountPeriod[t].Of(p)[k] >= 1
    {
      assert Column(r.keywordCountPeriod, p)[t] == r.keywordCountPeriod[t].Of(p);
    }
  }

  lemma DescribedSources(r: Report, fs: seq<Fact>, i: int)
    requires Describes(r, fs) && 0 <= i < |fs|
    ensures fs[i].source in r.newsCountSource && fs[i].author in r.newsCountSource[fs[i].source]
  {
    assert SourceAuthors(fs)[i] in multiset(SourceAuthors(fs));
  }

  /** The keyword counters have one entry per distinct search term of the
      stored articles. */
  lemma TransformTerms(docs: seq<Article>, t: string)
    requires TransformData(docs).Ok?
    ensures t in TransformData(docs).value.keywordCountPeriod <==> exists i :: 0 <= i < |docs| && docs[i].searchTerm == t
  {
    TransformDescribes(docs);
    var fs := Facts(docs).value;
    DescribedTerms(TransformData(docs).value, fs, t);
    assert forall i :: 0 <= i < |docs| ==> fs[i].term == docs[i].searchTerm;
  }

  /** Every count present in the report is at least one. */
  lemma TransformPositive(docs: seq<Article>)
    requires TransformData(docs).Ok?
    ensures var r := TransformData(docs).value;
      && (forall p: Period, k :: k in r.newsCountPeriod.Of(p) ==> r.newsCountPeriod.Of(p)[k] >= 1)
      && (forall o, a :: o in r.newsCountSource && a in r.newsCountSource[o] ==> r.newsCountSource[o][a] >= 1)
      && (forall t, p: Period, k :: t in r.keywordCountPeriod && k in r.keywordCountPeriod[t].Of(p) ==>
            r.keywordCountPeriod[t].Of(p)[k] >= 1)
  {
    TransformDescribes(docs);
    DescribedPositive(TransformData(docs).value, Facts(docs).value);
  }

  /** An article without a source name, or without an author, is counted
      under "Unknown". */
  lemma TransformUnknown(docs: seq<Article>, i: int)
    requires TransformData(docs).Ok? && 0 <= i < |docs|
    ensures var r := TransformData(docs).value;
      var source := OrUnknown(docs[i].raw.source.name);
      && (docs[i].raw.source.name.None? ==> source == Unknown)
      && source in r.newsCountSource
      && (docs[i].raw.author.None? ==> Unknown in r.newsCountSource[source])
  {
    TransformDescribes(docs);
    DescribedSources(TransformData(docs).value, Facts(docs).value, i);
  }

  /** The run fails exactly when some article's date does not parse, and
      then with the error of the first such article. */
  lemma TransformFails(docs: seq<Article>)
    ensures TransformData(docs).Err? <==> exists i :: 0 <= i < |docs| && PublishedOn(docs[i]).Err?
    ensures TransformData(docs).Err? ==>
      exists i :: FirstBadDate(docs, i) && TransformData(docs).error == BadDate(DatePart(docs[i].raw.publishedAt))
  {
    TransformFromFacts(EmptyReport, docs);
  }
}
