/** The document-store controller (`NewsDBController`): one collection,
    held as the sequence of its documents in insertion order, each stamped
    with the `entry_dt` it was inserted at. Whether the database accepts an
    insert, and the clock reading at that moment, are parameters. */
module Store {
  import opened Results
  import opened Text
  import opened Clock
  import opened Terms
  import opened Crawler

  /** A stored document: a copy of what was given, plus `entry_dt`. */
  datatype Entry<T> = Entry(doc: T, entryDt: int)

  /** The documents `insert_data` writes to the monitoring collection. */
  datatype MonitoringRecord = MonitoringRecord(terms: Option<seq<string>>, totalAdded: Option<int>, service: string)

  const ValidCollections: seq<string> := ["news", "production", "monitoring"]

  /** The constructor: the name is lower-cased and stripped, then checked
      against the three collections; the active collection is the
      normalised name. */
  function OpenCollection(name: string): (r: Result<string>)
    ensures r.Ok? <==> Strip(Lower(name)) in ValidCollections
    ensures r.Ok? ==> r.value == Strip(Lower(name)) && r.value in ValidCollections
    ensures r.Err? ==> r.error == InvalidCollection(name)
  {
    var normalised := Strip(Lower(name));
    if normalised in ValidCollections then Ok(normalised) else Err(InvalidCollection(name))
  }

  lemma LowerConcat(a: string, b: string)
    ensures Lower(a + b) == Lower(a) + Lower(b)
  {
  }

  lemma LowerAllSpace(a: string)
    ensures AllSpace(Lower(a)) <==> AllSpace(a)
  {
    assert forall i :: 0 <= i < |a| ==> (IsSpace(Lower(a)[i]) <==> IsSpace(a[i]));
  }

  /** Any case and any whitespace around a collection name are accepted. */
  lemma OpenCollectionPadded(a: string, t: string, b: string)
    requires AllSpace(a) && AllSpace(b)
    requires Lower(t) in ValidCollections
    ensures OpenCollection(a + t + b) == Ok(Lower(t))
  {
    LowerConcat(a, t);
    LowerConcat(a + t, b);
    LowerAllSpace(a);
    LowerAllSpace(b);
    var c := Lower(t);
    assert c == "news" || c == "production" || c == "monitoring";
    assert !IsSpace(c[0]) && !IsSpace(c[|c| - 1]);
    StripPadded(Lower(a), c, Lower(b));
  }

  lemma SpaceUnderLowerPrefix(s: string, i: nat)
    requires i <= |s| && AllSpace(Lower(s)[..i])
    ensures AllSpace(s[..i])
  {
    forall k | 0 <= k < i ensures IsSpace(s[..i][k]) {
      assert Lower(s)[..i][k] == LowerChar(s[k]);
    }
  }

  lemma SpaceUnderLowerSuffix(s: string, j: nat)
    requires j <= |s| && AllSpace(Lower(s)[j..])
    ensures AllSpace(s[j..])
  {
    forall k | 0 <= k < |s| - j ensures IsSpace(s[j..][k]) {
      assert Lower(s)[j..][k] == LowerChar(s[j + k]);
    }
  }

  /** Whitespace at the ends of the lower-cased form was whitespace in the
      original, and the middle is the lower-cased middle. */
  lemma LowerShape(name: string, i: nat, j: nat)
    requires i <= j <= |name|
    requires AllSpace(Lower(name)[..i]) && AllSpace(Lower(name)[j..])
    ensures AllSpace(name[..i]) && AllSpace(name[j..]) && Lower(name[i..j]) == Lower(name)[i..j]
  {
    SpaceUnderLowerPrefix(name, i);
    SpaceUnderLowerSuffix(name, j);
    LowerSlice(name, i, j);
  }

  /** What `strip(lower(name))` keeps is the lower-cased form of a slice
      of `name` with only whitespace around it. */
  lemma StripLowerShape(name: string)
    ensures var c := Strip(Lower(name));
      var i := StripOffset(Lower(name));
      && i + |c| <= |name|
      && AllSpace(name[..i]) && AllSpace(name[i + |c|..])
      && Lower(name[i..i + |c|]) == c
  {
    var i, j := StripParts(Lower(name));
    LowerShape(name, i, j);
  }

  /** Conversely, an accepted name is a collection name in some case with
      whitespace around it. */
  lemma OpenCollectionShape(name: string)
    requires OpenCollection(name).Ok?
    ensures var c := OpenCollection(name).value;
      var i := StripOffset(Lower(name));
      && c in ValidCollections
      && i + |c| <= |name|
      && AllSpace(name[..i]) && AllSpace(name[i + |c|..])
      && Lower(name[i..i + |c|]) == c
  {
    assert OpenCollection(name).value == Strip(Lower(name));
    StripLowerShape(name);
  }

  /** `insert_data`: on success the copy is appended with `entry_dt` set to
      the clock reading; on failure nothing is appended. The result says
      which happened. */
  function InsertData<T>(c: seq<Entry<T>>, doc: T, now: int, accepted: bool): (r: (seq<Entry<T>>, bool))
    ensures r.1 == accepted
    ensures |r.0| == if accepted then |c| + 1 else |c|
    ensures r.0[..|c|] == c
    ensures accepted ==> r.0[|c|] == Entry(doc, now)
  {
    if accepted then (c + [Entry(doc, now)], true) else (c, false)
  }

  /** `read_data`: every stored document, in insertion order. */
  function ReadData<T>(c: seq<Entry<T>>): (docs: seq<T>)
    ensures |docs| == |c|
    ensures forall i :: 0 <= i < |c| ==> docs[i] == c[i].doc
  {
    seq(|c|, i requires 0 <= i < |c| => c[i].doc)
  }

  /** Reading after an insert gives what was there plus the new document;
      the `entry_dt` stamp is not part of what is read back as the
      document. */
  lemma ReadAfterInsert<T>(c: seq<Entry<T>>, doc: T, now: int, accepted: bool)
    ensures ReadData(InsertData(c, doc, now, accepted).0) == if accepted then ReadData(c) + [doc] else ReadData(c)
  {
    var after := ReadData(InsertData(c, doc, now, accepted).0);
    if accepted {
      assert forall i :: 0 <= i < |c| ==> after[i] == ReadData(c)[i];
    }
  }

  // ---------------------------------------------------------------------
  // The last run of a service

  const Services: seq<string> := ["monitoring", "transformer"]

  /** The largest `entry_dt` among the records of `service`, if any:
      `find_one({"service": service}, sort=[("entry_dt", DESCENDING)])`. */
  function Latest(c: seq<Entry<MonitoringRecord>>, service: string): (r: Option<int>)
    ensures r.None? <==> forall i :: 0 <= i < |c| ==> c[i].doc.service != service
    ensures r.Some? ==>
      && (exists i :: 0 <= i < |c| && c[i].doc.service == service && c[i].entryDt == r.value)
      && (forall i :: 0 <= i < |c| && c[i].doc.service == service ==> c[i].entryDt <= r.value)
  {
    if c == [] then None
    else
      var rest := Latest(c[1..], service);
      assert forall i :: 1 <= i < |c| ==> c[i] == c[1..][i - 1];
      if c[0].doc.service != service then rest
      else if rest.Some? && rest.value >= c[0].entryDt then rest
      else Some(c[0].entryDt)
  }

  /** `retrieve_last_monitoring_dt`: the name is validated in normalised
      form but the records are matched against the name as given; with no
      record the sentinel 2000-12-31 is returned. */
  function RetrieveLastMonitoringDt(c: seq<Entry<MonitoringRecord>>, service: string): (r: Result<int>)
    ensures r.Err? <==> Strip(Lower(service)) !in Services
    ensures r.Err? ==> r.error == InvalidService(service)
    ensures r.Ok? && (forall i :: 0 <= i < |c| ==> c[i].doc.service != service) ==> r.value == Sentinel
    ensures r.Ok? && (exists i :: 0 <= i < |c| && c[i].doc.service == service) ==>
      && (exists i :: 0 <= i < |c| && c[i].doc.service == service && c[i].entryDt == r.value)
      && (forall i :: 0 <= i < |c| && c[i].doc.service == service ==> c[i].entryDt <= r.value)
  {
    if Strip(Lower(service)) !in Services then Err(InvalidService(service))
    else
      match Latest(c, service)
      case None => Ok(Sentinel)
      case Some(t) => Ok(t)
  }

  /** A name without ASCII capitals is its own lower-case form. */
  lemma LowerKeeps(s: string)
    requires NoUpperAscii(s)
    ensures Lower(s) == s
  {
  }

  /** Both services query with a name that passes validation. */
  lemma ServiceNamesValid(c: seq<Entry<MonitoringRecord>>)
    ensures RetrieveLastMonitoringDt(c, "monitoring").Ok?
    ensures RetrieveLastMonitoringDt(c, "transformer").Ok?
  {
    LowerKeeps("monitoring");
    LowerKeeps("transformer");
    StripUnpadded("monitoring");
    StripUnpadded("transformer");
  }

  /** A name that differs from the stored one only in case or padding
      passes the check but matches no record. */
  lemma RawServiceNameQueried()
    ensures var c := [Entry(MonitoringRecord(None, None, "monitoring"), 5)];
      RetrieveLastMonitoringDt(c, "Monitoring") == Ok(Sentinel)
  {
    var s := "Monitoring";
    assert Lower(s) == "monitoring";
    StripUnpadded("monitoring");
  }

  // ---------------------------------------------------------------------
  // Duplicate detection

  /** The fields `is_document_already_inserted` compares: the source name,
      the title and the publication time. */
  datatype Key = Key(sourceName: Option<string>, title: string, publishedAt: string)

  function KeyOf(a: Article): Key {
    Key(a.raw.source.name, a.raw.title, a.raw.publishedAt)
  }

  /** `count_documents(check_params)`. */
  function CountDocuments(c: seq<Entry<Article>>, key: Key): (n: nat)
    ensures n <= |c|
    ensures n == 0 <==> forall i :: 0 <= i < |c| ==> KeyOf(c[i].doc) != key
  {
    if c == [] then 0
    else
      assert forall i :: 1 <= i < |c| ==> c[i] == c[1..][i - 1];
      (if KeyOf(c[0].doc) == key then 1 else 0) + CountDocuments(c[1..], key)
  }

  /** Some stored article has the same three fields. */
  predicate Present(c: seq<Entry<Article>>, key: Key) {
    exists i :: 0 <= i < |c| && KeyOf(c[i].doc) == key
  }

  /** `is_document_already_inserted`. */
  function IsDocumentAlreadyInserted(c: seq<Entry<Article>>, a: Article): (b: bool)
    ensures b <==> Present(c, KeyOf(a))
  {
    CountDocuments(c, KeyOf(a)) >= 1
  }

  /** After a successful insert the article counts as already inserted, and
      so does every article with the same three fields, whatever its search
      term or other fields. */
  lemma InsertedIsPresent(c: seq<Entry<Article>>, a: Article, now: int, b: Article)
    requires KeyOf(b) == KeyOf(a)
    ensures IsDocumentAlreadyInserted(InsertData(c, a, now, true).0, b)
  {
    var after := InsertData(c, a, now, true).0;
    assert KeyOf(after[|c|].doc) == KeyOf(b);
  }

  /** An insert never hides a document that was already there. */
  lemma InsertKeepsPresent(c: seq<Entry<Article>>, a: Article, now: int, accepted: bool, key: Key)
    requires Present(c, key)
    ensures Present(InsertData(c, a, now, accepted).0, key)
  {
    var i :| 0 <= i < |c| && KeyOf(c[i].doc) == key;
    assert InsertData(c, a, now, accepted).0[i] == c[i];
  }

  /** What is present after an insert: what was there, and the new article
      if the insert succeeded. */
  lemma InsertPresence(c: seq<Entry<Article>>, a: Article, now: int, accepted: bool, key: Key)
    ensures Present(InsertData(c, a, now, accepted).0, key) <==> Present(c, key) || (accepted && KeyOf(a) == key)
  {
    var after := InsertData(c, a, now, accepted).0;
    if Present(c, key) {
      InsertKeepsPresent(c, a, now, accepted, key);
    }
    if accepted && KeyOf(a) == key {
      assert KeyOf(after[|c|].doc) == key;
    }
    if Present(after, key) {
      var i :| 0 <= i < |after| && KeyOf(after[i].doc) == key;
      if i < |c| {
        assert after[i] == c[i];
      }
    }
  }

  /** No two stored articles share the three fields. */
  predicate NoDuplicateKeys(c: seq<Entry<Article>>) {
    forall i, j :: 0 <= i < j < |c| ==> KeyOf(c[i].doc) != KeyOf(c[j].doc)
  }

  /** Inserting an article whose key is not present keeps the store free of
      duplicates. */
  lemma InsertFreshKeepsNoDuplicates(c: seq<Entry<Article>>, a: Article, now: int, accepted: bool)
    requires NoDuplicateKeys(c) && !Present(c, KeyOf(a))
    ensures NoDuplicateKeys(InsertData(c, a, now, accepted).0)
  {
    var after := InsertData(c, a, now, accepted).0;
    forall i, j | 0 <= i < j < |after| ensures KeyOf(after[i].doc) != KeyOf(after[j].doc) {
      assert after[i] == c[i];
      if j < |c| {
        assert after[j] == c[j];
      }
    }
  }
}
