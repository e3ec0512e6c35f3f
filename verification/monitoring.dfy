/** One step of each of the two services: the hourly ingestion run
    (`NewsMonitoringService.run`) and the daily aggregation run
    (`NewsDataTransformerService.run`), over the three collections. The
    clock reading at the start of a run is a parameter; each write of a run
    has its own clock reading and its own success, given by `Writes` and
    indexed by the write's position in the run. */
module Monitoring {
  import opened Results
  import opened Terms
  import opened Crawler
  import opened Clock
  import opened Store
  import opened Dates
  import opened Aggregation

  datatype Db = Db(
    news: seq<Entry<Article>>,
    production: seq<Entry<Report>>,
    monitoring: seq<Entry<MonitoringRecord>>)

  /** `utcnow()` at the k-th write of a run, and whether it succeeds. */
  datatype Writes = Writes(clock: nat -> int, accepts: nat -> bool)

  /** How a run ends: after waiting (the length of the wait), having done
      its work, or with an exception. */
  datatype Outcome = Waited(seconds: nat) | Completed | Raised(error: Error)

  datatype Run = Run(db: Db, outcome: Outcome)

  /** The language `get_news` uses when none is given. */
  const DefaultLanguage := "en"

  // ---------------------------------------------------------------------
  // The ingestion loop

  /** The loop over the fetched articles: an article whose key is present
      is skipped; any other is inserted, and counted when the insert
      succeeds. Article `i` is written with write number `step + i`. */
  function Ingest(news: seq<Entry<Article>>, arts: seq<Article>, step: nat, w: Writes): (r: (seq<Entry<Article>>, nat))
    ensures |news| <= |r.0| && r.0[..|news|] == news
    ensures r.1 == |r.0| - |news| && r.1 <= |arts|
    decreases |arts|
  {
    if arts == [] then (news, 0)
    else if IsDocumentAlreadyInserted(news, arts[0]) then Ingest(news, arts[1..], step + 1, w)
    else
      var (news1, ok) := InsertData(news, arts[0], w.clock(step), w.accepts(step));
      var (news2, n) := Ingest(news1, arts[1..], step + 1, w);
      (news2, n + if ok then 1 else 0)
  }

  /** Some article of `arts` with this key was written successfully. */
  predicate AcceptedWithKey(arts: seq<Article>, step: nat, w: Writes, key: Key) {
    exists i :: 0 <= i < |arts| && w.accepts(step + i) && KeyOf(arts[i]) == key
  }

  lemma AcceptedWithKeyCons(arts: seq<Article>, step: nat, w: Writes, key: Key)
    requires arts != []
    ensures AcceptedWithKey(arts, step, w, key) <==>
      (w.accepts(step) && KeyOf(arts[0]) == key) || AcceptedWithKey(arts[1..], step + 1, w, key)
  {
    if AcceptedWithKey(arts, step, w, key) {
      var i :| 0 <= i < |arts| && w.accepts(step + i) && KeyOf(arts[i]) == key;
      if i > 0 {
        assert arts[1..][i - 1] == arts[i];
      }
    }
    if AcceptedWithKey(arts[1..], step + 1, w, key) {
      var i :| 0 <= i < |arts[1..]| && w.accepts(step + 1 + i) && KeyOf(arts[1..][i]) == key;
      assert arts[i + 1] == arts[1..][i];
    }
  }

  /** After the loop a key is present exactly when it was present before or
      some article with that key was written successfully: a failed insert
      does not stop the later articles. */
  lemma {:induction false} IngestPresence(news: seq<Entry<Article>>, arts: seq<Article>, step: nat, w: Writes, key: Key)
    ensures Present(Ingest(news, arts, step, w).0, key) <==> Present(news, key) || AcceptedWithKey(arts, step, w, key)
    decreases |arts|
  {
    if arts != [] {
      AcceptedWithKeyCons(arts, step, w, key);
      if IsDocumentAlreadyInserted(news, arts[0]) {
        IngestPresence(news, arts[1..], step + 1, w, key);
      } else {
        var news1 := InsertData(news, arts[0], w.clock(step), w.accepts(step)).0;
        InsertPresence(news, arts[0], w.clock(step), w.accepts(step), key);
        IngestPresence(news1, arts[1..], step + 1, w, key);
      }
    }
  }

  /** `e` is the article at some position `i` of `arts`, written
      successfully and stamped with the clock of write `step + i`. */
  predicate FromArticles(e: Entry<Article>, arts: seq<Article>, step: nat, w: Writes) {
    exists i :: 0 <= i < |arts| && w.accepts(step + i) && e == Entry(arts[i], w.clock(step + i))
  }

  lemma FromArticlesTail(e: Entry<Article>, arts: seq<Article>, step: nat, w: Writes)
    requires arts != [] && FromArticles(e, arts[1..], step + 1, w)
    ensures FromArticles(e, arts, step, w)
  {
    var i :| 0 <= i < |arts[1..]| && w.accepts(step + 1 + i) && e == Entry(arts[1..][i], w.clock(step + 1 + i));
    assert arts[i + 1] == arts[1..][i];
  }

  /** Every entry of `r` past the prefix `news` comes from `arts` and has a
      key that `news` does not hold. */
  predicate AddedFrom(news: seq<Entry<Article>>, r: seq<Entry<Article>>, arts: seq<Article>, step: nat, w: Writes) {
    forall j :: |news| <= j < |r| ==> !Present(news, KeyOf(r[j].doc)) && FromArticles(r[j], arts, step, w)
  }

  /** Every document the loop adds is a fetched article, stamped with the
      clock of its write, that was written successfully and whose key was
      not present before. */
  lemma {:induction false} IngestAdds(news: seq<Entry<Article>>, arts: seq<Article>, step: nat, w: Writes)
    ensures AddedFrom(news, Ingest(news, arts, step, w).0, arts, step, w)
    decreases |arts|
  {
    if arts != [] {
      var r := Ingest(news, arts, step, w).0;
      if IsDocumentAlreadyInserted(news, arts[0]) {
        assert r == Ingest(news, arts[1..], step + 1, w).0;
        IngestAdds(news, arts[1..], step + 1, w);
        forall j | |news| <= j < |r|
          ensures !Present(news, KeyOf(r[j].doc)) && FromArticles(r[j], arts, step, w)
        {
          FromArticlesTail(r[j], arts, step, w);
        }
      } else {
        var news1 := InsertData(news, arts[0], w.clock(step), w.accepts(step)).0;
        assert r == Ingest(news1, arts[1..], step + 1, w).0;
        IngestAdds(news1, arts[1..], step + 1, w);
        forall j | |news| <= j < |r|
          ensures !Present(news, KeyOf(r[j].doc)) && FromArticles(r[j], arts, step, w)
        {
          if j < |news1| {
            assert r[j] == news1[j] == Entry(arts[0], w.clock(step));
            assert w.accepts(step + 0) && r[j] == Entry(arts[0], w.clock(step + 0));
          } else {
            if Present(news, KeyOf(r[j].doc)) {
              InsertKeepsPresent(news, arts[0], w.clock(step), w.accepts(step), KeyOf(r[j].doc));
            }
            FromArticlesTail(r[j], arts, step, w);
          }
        }
      }
    }
  }

  /** A store without duplicate keys stays without them. */
  lemma {:induction false} IngestNoDuplicates(news: seq<Entry<Article>>, arts: seq<Article>, step: nat, w: Writes)
    requires NoDuplicateKeys(news)
    ensures NoDuplicateKeys(Ingest(news, arts, step, w).0)
    decreases |arts|
  {
    if arts != [] {
      if IsDocumentAlreadyInserted(news, arts[0]) {
        IngestNoDuplicates(news, arts[1..], step + 1, w);
      } else {
        var news1 := InsertData(news, arts[0], w.clock(step), w.accepts(step)).0;
        InsertFreshKeepsNoDuplicates(news, arts[0], w.clock(step), w.accepts(step));
        IngestNoDuplicates(news1, arts[1..], step + 1, w);
      }
    }
  }

  /** Articles whose keys are all present add nothing. */
  lemma {:induction false} IngestAllPresent(news: seq<Entry<Article>>, arts: seq<Article>, step: nat, w: Writes)
    requires forall i :: 0 <= i < |arts| ==> Present(news, KeyOf(arts[i]))
    ensures Ingest(news, arts, step, w) == (news, 0)
    decreases |arts|
  {
    if arts != [] {
      assert Present(news, KeyOf(arts[0]));
      assert forall i :: 0 <= i < |arts[1..]| ==> arts[1..][i] == arts[i + 1];
      IngestAllPresent(news, arts[1..], step + 1, w);
    }
  }

  /** Across runs: once a run has written every article, fetching the same
      articles again adds nothing and counts nothing. */
  lemma IngestAgain(news: seq<Entry<Article>>, arts: seq<Article>, step: nat, w: Writes, step2: nat, w2: Writes)
    requires forall k :: step <= k < step + |arts| ==> w.accepts(k)
    ensures var first := Ingest(news, arts, step, w).0;
      Ingest(first, arts, step2, w2) == (first, 0)
  {
    var first := Ingest(news, arts, step, w).0;
    forall i | 0 <= i < |arts| ensures Present(first, KeyOf(arts[i])) {
      assert w.accepts(step + i);
      IngestPresence(news, arts, step, w, KeyOf(arts[i]));
    }
    IngestAllPresent(first, arts, step2, w2);
  }

  /** Within a run: the same key twice is stored once and counted once. */
  lemma IngestSameKeyTwice(news: seq<Entry<Article>>, a: Article, b: Article, step: nat, w: Writes)
    requires KeyOf(a) == KeyOf(b) && !Present(news, KeyOf(a)) && w.accepts(step)
    ensures Ingest(news, [a, b], step, w).1 == 1
  {
    var news1 := InsertData(news, a, w.clock(step), true).0;
    InsertedIsPresent(news, a, w.clock(step), b);
    assert [a, b][1..] == [b];
    assert [b][1..] == [];
    assert Ingest(news1, [b], step + 1, w) == (news1, 0);
  }

  // ---------------------------------------------------------------------
  // The ingestion run

  /** The `entry_dt` of the service's latest record, or the sentinel when
      it has none. */
  function LastRun(db: Db, service: string): int {
    match Latest(db.monitoring, service)
    case None => Sentinel
    case Some(t) => t
  }

  /** Both services query with a name that passes validation, so the time
      `retrieve_last_monitoring_dt` hands them is `LastRun`. */
  lemma LastRunRetrieves(db: Db)
    ensures RetrieveLastMonitoringDt(db.monitoring, "monitoring") == Ok(LastRun(db, "monitoring"))
    ensures RetrieveLastMonitoringDt(db.monitoring, "transformer") == Ok(LastRun(db, "transformer"))
  {
    ServiceNamesValid(db.monitoring);
  }

  /** The seconds part of the time since the last ingestion run. */
  function SinceLastIngestion(db: Db, now: int): (s: nat)
    ensures s < SecondsPerDay
  {
    DeltaSeconds(now - LastRun(db, "monitoring"))
  }

  /** The record an ingestion run leaves: its terms, how many articles it
      added, and the service name. */
  predicate IngestionRecord(doc: MonitoringRecord, terms: seq<string>, added: int) {
    doc == MonitoringRecord(Some(terms), Some(added), "monitoring")
  }

  /** The work of an ingestion run once the gate is passed: store the
      fetched articles, then, unless the fetch was interrupted, append a
      record with the number added. The record is write number `|arts|`. */
  function Collect(db: Db, terms: seq<string>, stream: Stream, w: Writes): (r: Run)
    ensures r.outcome.Raised? <==> stream.aborted
    ensures r.outcome.Raised? ==> r.outcome.error == ApiError && r.db.monitoring == db.monitoring
    ensures !r.outcome.Raised? ==> r.outcome == Completed
    ensures r.db.production == db.production
    ensures r.db.news == Ingest(db.news, stream.articles, 0, w).0
    ensures |db.news| <= |r.db.news| && r.db.news[..|db.news|] == db.news
    ensures |db.monitoring| <= |r.db.monitoring| <= |db.monitoring| + 1
    ensures r.db.monitoring[..|db.monitoring|] == db.monitoring
    ensures |r.db.monitoring| > |db.monitoring| ==>
      IngestionRecord(r.db.monitoring[|db.monitoring|].doc, terms, |r.db.news| - |db.news|)
    ensures !stream.aborted ==>
      r.db.monitoring == InsertData(db.monitoring,
        MonitoringRecord(Some(terms), Some(|r.db.news| - |db.news|), "monitoring"),
        w.clock(|stream.articles|), w.accepts(|stream.articles|)).0
  {
    var (news, added) := Ingest(db.news, stream.articles, 0, w);
    if stream.aborted then Run(db.(news := news), Raised(ApiError))
    else
      var record := MonitoringRecord(Some(terms), Some(added), "monitoring");
      var n := |stream.articles|;
      var (monitoring, _) := InsertData(db.monitoring, record, w.clock(n), w.accepts(n));
      Run(db.(news := news, monitoring := monitoring), Completed)
  }

  /** Before a service's first record, its last run reads as the sentinel. */
  lemma NoRecordMeansSentinel(db: Db, service: string)
    requires forall i :: 0 <= i < |db.monitoring| ==> db.monitoring[i].doc.service != service
    ensures LastRun(db, service) == Sentinel
  {
  }

  /** `NewsMonitoringService.run`. `order` is the order in which the set of
      compiled terms is iterated; `from` and `to` are the window strings;
      `apiKey` is the configured key. */
  function ServiceRun(db: Db, terms: seq<string>, now: int, api: Api, w: Writes, order: seq<string>,
                      from: string, to: string, apiKey: Option<string>): (r: Run)
    requires IsListing(order, CompileTerms(terms))
    ensures r.outcome.Waited? <==> SinceLastIngestion(db, now) < SecondsPerHour
    ensures r.outcome.Waited? ==> r.db == db && r.outcome.seconds == SecondsPerHour - SinceLastIngestion(db, now)
    ensures r.outcome.Raised? ==> r.outcome.error == ApiError && r.db.monitoring == db.monitoring
    ensures r.db.production == db.production
    ensures |db.news| <= |r.db.news| && r.db.news[..|db.news|] == db.news
    ensures |db.monitoring| <= |r.db.monitoring| <= |db.monitoring| + 1
    ensures r.db.monitoring[..|db.monitoring|] == db.monitoring
    ensures |r.db.monitoring| > |db.monitoring| ==>
      IngestionRecord(r.db.monitoring[|db.monitoring|].doc, terms, |r.db.news| - |db.news|)
  {
    var elapsed := SinceLastIngestion(db, now);
    if elapsed < SecondsPerHour then Run(db, Waited(Abs(SecondsPerHour - elapsed)))
    else Collect(db, terms, GetNews(api, terms, order, from, to, DefaultLanguage, apiKey), w)
  }

  /** Inside the hour the run only waits, for the rest of the hour. */
  lemma RecentRunWaits(db: Db, terms: seq<string>, now: int, api: Api, w: Writes, order: seq<string>,
                       from: string, to: string, apiKey: Option<string>)
    requires IsListing(order, CompileTerms(terms))
    requires SinceLastIngestion(db, now) < SecondsPerHour
    ensures ServiceRun(db, terms, now, api, w, order, from, to, apiKey)
         == Run(db, Waited(SecondsPerHour - SinceLastIngestion(db, now)))
  {
    var r := ServiceRun(db, terms, now, api, w, order, from, to, apiKey);
    assert r.outcome.Waited? && r.db == db;
  }

  /** The gate reads only the seconds part of the elapsed time: a last run
      one day and ten minutes ago still makes the service wait. */
  lemma DayAndTenMinutesGates(db: Db, terms: seq<string>, now: int, api: Api, w: Writes, order: seq<string>,
                              from: string, to: string, apiKey: Option<string>)
    requires IsListing(order, CompileTerms(terms))
    requires now == LastRun(db, "monitoring") + SecondsPerDay + 600
    ensures ServiceRun(db, terms, now, api, w, order, from, to, apiKey) == Run(db, Waited(3000))
  {
    DeltaNormalisationUnique(SecondsPerDay + 600, 1, 600);
    RecentRunWaits(db, terms, now, api, w, order, from, to, apiKey);
  }

  /** With no record yet the last run is midnight of 2000-12-31, so a first
      run during the first hour of any UTC day (after that date) waits. */
  lemma FirstRunNearMidnightWaits(db: Db, terms: seq<string>, now: int, days: nat, second: int, api: Api, w: Writes,
                                  order: seq<string>, from: string, to: string, apiKey: Option<string>)
    requires IsListing(order, CompileTerms(terms))
    requires forall i :: 0 <= i < |db.monitoring| ==> db.monitoring[i].doc.service != "monitoring"
    requires 0 <= second < SecondsPerHour && now == Sentinel + days * SecondsPerDay + second
    ensures ServiceRun(db, terms, now, api, w, order, from, to, apiKey) == Run(db, Waited(SecondsPerHour - second))
  {
    NoRecordMeansSentinel(db, "monitoring");
    var delta := now - LastRun(db, "monitoring");
    assert delta == days * SecondsPerDay + second;
    DeltaNormalisationUnique(delta, days, second);
    assert SinceLastIngestion(db, now) == second;
    RecentRunWaits(db, terms, now, api, w, order, from, to, apiKey);
  }

  /** A run that passes the gate and is not interrupted adds the fetched
      articles it could write, counts exactly those, and appends one record
      after all of them when the last write succeeds. */
  lemma ServiceRunRecords(db: Db, terms: seq<string>, now: int, api: Api, w: Writes, order: seq<string>,
                          from: string, to: string, apiKey: Option<string>)
    requires IsListing(order, CompileTerms(terms))
    requires SinceLastIngestion(db, now) >= SecondsPerHour
    ensures var stream := GetNews(api, terms, order, from, to, DefaultLanguage, apiKey);
      var r := ServiceRun(db, terms, now, api, w, order, from, to, apiKey);
      && r.db.news == Ingest(db.news, stream.articles, 0, w).0
      && (r.outcome.Raised? <==> stream.aborted)
      && (!stream.aborted ==>
            r.outcome == Completed && (|r.db.monitoring| == |db.monitoring| + 1 <==> w.accepts(|stream.articles|)))
      && (!stream.aborted && w.accepts(|stream.articles|) ==>
            r.db.monitoring[|db.monitoring|] == Entry(
              MonitoringRecord(Some(terms), Some(Ingest(db.news, stream.articles, 0, w).1), "monitoring"),
              w.clock(|stream.articles|)))
  {
  }

  // ---------------------------------------------------------------------
  // The aggregation run

  /** `NewsDataTransformerService.run`: waits unless a whole day has passed
      since the last aggregation; otherwise aggregates the news collection,
      inserts the report into production (write 0) and a record into
      monitoring (write 1). */
  function TransformerRun(db: Db, now: int, w: Writes): (r: Run)
    ensures var days := DeltaDays(now - LastRun(db, "transformer"));
      && (r.outcome.Waited? <==> days < 1)
      && (r.outcome.Waited? ==> r.db == db && r.outcome.seconds == SecondsPerDay - days)
    ensures DeltaDays(now - LastRun(db, "transformer")) >= 1 ==>
      (r.outcome.Raised? <==> TransformData(ReadData(db.news)).Err?)
    ensures r.outcome.Raised? ==> r.db == db && r.outcome.error == TransformData(ReadData(db.news)).error
    ensures r.outcome.Raised? ==> exists i ::
      FirstBadDate(ReadData(db.news), i) && r.outcome.error == BadDate(DatePart(ReadData(db.news)[i].raw.publishedAt))
    ensures r.db.news == db.news
    ensures r.outcome.Completed? ==> TransformData(ReadData(db.news)).Ok?
    ensures r.outcome.Completed? && w.accepts(0) ==>
      r.db.production == db.production + [Entry(TransformData(ReadData(db.news)).value, w.clock(0))]
    ensures r.outcome.Completed? && w.accepts(1) ==>
      r.db.monitoring == db.monitoring + [Entry(MonitoringRecord(None, None, "transformer"), w.clock(1))]
    ensures r.outcome.Completed? && !w.accepts(0) ==> r.db.production == db.production
    ensures r.outcome.Completed? && !w.accepts(1) ==> r.db.monitoring == db.monitoring
  {
    var days := DeltaDays(now - LastRun(db, "transformer"));
    if days < 1 then Run(db, Waited(Abs(SecondsPerDay - days)))
    else
      match TransformData(ReadData(db.news))
      case Err(e) =>
        TransformFails(ReadData(db.news));
        Run(db, Raised(e))
      case Ok(report) =>
        var (production, _) := InsertData(db.production, report, w.clock(0), w.accepts(0));
        var record := MonitoringRecord(None, None, "transformer");
        var (monitoring, _) := InsertData(db.monitoring, record, w.clock(1), w.accepts(1));
        Run(db.(production := production, monitoring := monitoring), Completed)
  }

  /** The wait is `abs(86400 - days)` seconds with `days` at most zero, so
      the service always waits at least a full day's worth of seconds. */
  lemma TransformerWaitsAtLeastADay(db: Db, now: int, w: Writes)
    requires TransformerRun(db, now, w).outcome.Waited?
    ensures TransformerRun(db, now, w).outcome.seconds >= SecondsPerDay
  {
  }

  /** The report depends on the news collection only, not on earlier
      reports or records. */
  lemma ReportDependsOnNewsOnly(db: Db, db2: Db, now: int, w: Writes)
    requires db.news == db2.news
    requires TransformerRun(db, now, w).outcome.Completed? && TransformerRun(db2, now, w).outcome.Completed?
    requires w.accepts(0)
    ensures TransformerRun(db, now, w).db.production[|db.production|]
         == TransformerRun(db2, now, w).db.production[|db2.production|]
  {
  }
}
