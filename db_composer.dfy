/**
 * DBComposer (dagda/vulnDB/db_composer.py): fills the three vulnerability collections of
 * the database. The Mongo driver is modelled by the sequence of calls the composer makes
 * on it; the network fetches and decoders are replaced by their decoded results, passed in
 * as parameters.
 */
module DbComposer {
  import opened Wrappers
  import opened PyText
  import opened FeedRecords
  import opened Batching

  /** The NVD yearly feeds read, `range(2002, 2017)`. */
  const FirstYear: int := 2002
  const LastYear: int := 2016

  datatype Collection = CveCollection | BidCollection | ExploitDbCollection

  /** One call on the database driver: clearing a collection, or a bulk insert of the
      documents made from a set of keys (`list(set)`, whose order is unspecified). */
  datatype DriverCall = Delete(collection: Collection) | BulkInsert(collection: Collection, keys: set<string>)

  /** One bulk insert per batch, in order. */
  function Inserts(c: Collection, batches: seq<set<string>>): (r: seq<DriverCall>)
    ensures |r| == |batches|
    ensures forall n :: 0 <= n < |r| ==> r[n] == BulkInsert(c, batches[n])
    decreases |batches|
  {
    if batches == [] then []
    else Inserts(c, batches[..|batches| - 1]) + [BulkInsert(c, batches[|batches| - 1])]
  }

  /** One more batch is one more bulk insert at the end. */
  lemma InsertsSnoc(c: Collection, batches: seq<set<string>>, b: set<string>)
    ensures Inserts(c, batches + [b]) == Inserts(c, batches) + [BulkInsert(c, b)]
  {
    assert (batches + [b])[..|batches|] == batches;
  }

  // ---- NVD CVE feed ----

  /** The keys the products of one entry give. */
  function EntryKeys(id: string, products: seq<string>): set<string>
    decreases |products|
  {
    if products == [] then {}
    else
      EntryKeys(id, products[..|products| - 1]) +
      (match CveProductKey(id, products[|products| - 1]) case None => {} case Some(k) => {k})
  }

  /** The keys of one year's entries, deduplicated. */
  function CveKeys(entries: seq<CveEntry>): set<string>
    decreases |entries|
  {
    if entries == [] then {}
    else CveKeys(entries[..|entries| - 1]) + EntryKeys(entries[|entries| - 1].id, entries[|entries| - 1].products)
  }

  /** Product `j` of entry `i` gives the key `k`. */
  predicate GivesCveKey(entries: seq<CveEntry>, i: int, j: int, k: string) {
    0 <= i < |entries| && 0 <= j < |entries[i].products| &&
    CveProductKey(entries[i].id, entries[i].products[j]) == Some(k)
  }

  lemma {:induction false} EntryKeysSound(id: string, products: seq<string>, k: string)
    requires k in EntryKeys(id, products)
    ensures exists j :: 0 <= j < |products| && CveProductKey(id, products[j]) == Some(k)
    decreases |products|
  {
    var front := products[..|products| - 1];
    if k in EntryKeys(id, front) {
      EntryKeysSound(id, front, k);
      var j :| 0 <= j < |front| && CveProductKey(id, front[j]) == Some(k);
      assert products[j] == front[j];
    } else {
      assert CveProductKey(id, products[|products| - 1]) == Some(k);
    }
  }

  lemma {:induction false} EntryKeysComplete(id: string, products: seq<string>, j: nat, k: string)
    requires j < |products| && CveProductKey(id, products[j]) == Some(k)
    ensures k in EntryKeys(id, products)
    decreases |products|
  {
    var front := products[..|products| - 1];
    if j < |front| {
      assert front[j] == products[j];
      EntryKeysComplete(id, front, j, k);
    }
  }

  lemma {:induction false} CveKeysSound(entries: seq<CveEntry>, k: string)
    requires k in CveKeys(entries)
    ensures exists i, j :: GivesCveKey(entries, i, j, k)
    decreases |entries|
  {
    var front, last := entries[..|entries| - 1], entries[|entries| - 1];
    if k in CveKeys(front) {
      CveKeysSound(front, k);
      var i, j :| GivesCveKey(front, i, j, k);
      assert entries[i] == front[i];
      assert GivesCveKey(entries, i, j, k);
    } else {
      EntryKeysSound(last.id, last.products, k);
      var j :| 0 <= j < |last.products| && CveProductKey(last.id, last.products[j]) == Some(k);
      assert GivesCveKey(entries, |entries| - 1, j, k);
    }
  }

  lemma {:induction false} CveKeysComplete(entries: seq<CveEntry>, i: nat, j: nat, k: string)
    requires GivesCveKey(entries, i, j, k)
    ensures k in CveKeys(entries)
    decreases |entries|
  {
    var front, last := entries[..|entries| - 1], entries[|entries| - 1];
    if i < |front| {
      assert front[i] == entries[i];
      assert GivesCveKey(front, i, j, k);
      CveKeysComplete(front, i, j, k);
    } else {
      EntryKeysComplete(last.id, last.products, j, k);
    }
  }

  /** A key is in a year's list exactly when some product identifier of some entry gives it. */
  lemma CveKeysMembers(entries: seq<CveEntry>, k: string)
    ensures k in CveKeys(entries) <==> exists i, j :: GivesCveKey(entries, i, j, k)
  {
    if k in CveKeys(entries) {
      CveKeysSound(entries, k);
    }
    if exists i, j :: GivesCveKey(entries, i, j, k) {
      var i, j :| GivesCveKey(entries, i, j, k);
      CveKeysComplete(entries, i, j, k);
    }
  }

  /** The key sets of the NVD years `first` up to `last - 1`, in order. */
  function YearKeys(cveFeed: int -> seq<CveEntry>, first: int, last: int): seq<set<string>>
    decreases last - first
  {
    if last <= first then []
    else YearKeys(cveFeed, first, last - 1) + [CveKeys(cveFeed(last - 1))]
  }

  /** One key set per year, in order, each that year's own. */
  lemma {:induction false} YearKeysYears(cveFeed: int -> seq<CveEntry>, first: int, last: int)
    requires first <= last
    ensures |YearKeys(cveFeed, first, last)| == last - first
    ensures forall n :: 0 <= n < last - first ==> YearKeys(cveFeed, first, last)[n] == CveKeys(cveFeed(first + n))
    decreases last - first
  {
    if first < last {
      YearKeysYears(cveFeed, first, last - 1);
    }
  }

  // ---- Exploit-DB and bugtraq feeds ----

  /** The key groups of the searched rows, in order; skipped rows run no size check. */
  function ExploitGroups(lines: seq<string>): seq<seq<string>>
    decreases |lines|
  {
    if lines == [] then []
    else
      var front := ExploitGroups(lines[..|lines| - 1]);
      match ExploitRowKeys(lines[|lines| - 1])
      case None => front
      case Some(keys) => front + [keys]
  }

  /** One more line adds its key group exactly when the row is searched. */
  lemma ExploitGroupsPrefix(lines: seq<string>, i: nat)
    requires i < |lines|
    ensures ExploitRowKeys(lines[i]).None? ==> ExploitGroups(lines[..i + 1]) == ExploitGroups(lines[..i])
    ensures ExploitRowKeys(lines[i]).Some? ==>
      ExploitGroups(lines[..i + 1]) == ExploitGroups(lines[..i]) + [ExploitRowKeys(lines[i]).value]
  {
    assert lines[..i + 1][..i] == lines[..i];
  }

  /** The key groups of the bugtraq lines, in order: every line runs the size check. */
  function BidGroups(lines: seq<BidLine>): seq<seq<string>>
    decreases |lines|
  {
    if lines == [] then []
    else BidGroups(lines[..|lines| - 1]) + [BidLineKeys(lines[|lines| - 1])]
  }

  /** One more bugtraq line, malformed or not, adds one key group and so one size check:
      the batcher takes one `Step` with the keys the line gives (none for a malformed
      line). */
  lemma BidGroupsPrefix(lines: seq<BidLine>, i: nat)
    requires i < |lines|
    ensures BidGroups(lines[..i + 1]) == BidGroups(lines[..i]) + [BidLineKeys(lines[i])]
    ensures Feed(BidGroups(lines[..i + 1])) == Step(Feed(BidGroups(lines[..i])), BidLineKeys(lines[i]))
    ensures lines[i].Malformed? ==> BidLineKeys(lines[i]) == []
  {
    assert lines[..i + 1][..i] == lines[..i];
    FeedLast(BidGroups(lines[..i]), BidLineKeys(lines[i]));
  }

  /** There is one key group per bugtraq line. */
  lemma {:induction false} BidGroupsLength(lines: seq<BidLine>)
    ensures |BidGroups(lines)| == |lines|
    decreases |lines|
  {
    if lines != [] {
      BidGroupsLength(lines[..|lines| - 1]);
    }
  }

  /** The calls of a composition whose Exploit-DB and bugtraq feeds gave these batches: the
      three collections are cleared, each NVD year from 2002 to 2016 is inserted, then the
      Exploit-DB batches, then the bugtraq batches. */
  function CallsFor(cveFeed: int -> seq<CveEntry>, exploitBatches: seq<set<string>>, bidBatches: seq<set<string>>): seq<DriverCall> {
    [Delete(CveCollection), Delete(BidCollection), Delete(ExploitDbCollection)]
    + Inserts(CveCollection, YearKeys(cveFeed, FirstYear, LastYear + 1))
    + Inserts(ExploitDbCollection, exploitBatches)
    + Inserts(BidCollection, bidBatches)
  }

  /** The batches of the Exploit-DB CSV file, split into lines. */
  function ExploitBatches(exploitCsv: string): seq<set<string>> {
    Batches(ExploitGroups(Split(exploitCsv, '\n')))
  }

  /** Every call `compose_vuln_db` makes, in order. */
  function ComposeCalls(cveFeed: int -> seq<CveEntry>, exploitCsv: string, bidLines: seq<BidLine>): seq<DriverCall> {
    CallsFor(cveFeed, ExploitBatches(exploitCsv), Batches(BidGroups(bidLines)))
  }

  // ---- What the collections hold ----

  /** The documents a collection holds after the calls, counted with multiplicity. */
  function Stored(calls: seq<DriverCall>, c: Collection): multiset<string>
    decreases |calls|
  {
    if calls == [] then multiset{}
    else
      var before := Stored(calls[..|calls| - 1], c);
      match calls[|calls| - 1]
      case Delete(d) => if d == c then multiset{} else before
      case BulkInsert(d, keys) => if d == c then before + multiset(keys) else before
  }

  /** All the documents of the batches, with multiplicity. */
  function Total(batches: seq<set<string>>): multiset<string>
    decreases |batches|
  {
    if batches == [] then multiset{}
    else Total(batches[..|batches| - 1]) + multiset(batches[|batches| - 1])
  }

  lemma StoredSnoc(calls: seq<DriverCall>, call: DriverCall, c: Collection)
    ensures call.collection != c ==> Stored(calls + [call], c) == Stored(calls, c)
    ensures call.collection == c && call.Delete? ==> Stored(calls + [call], c) == multiset{}
    ensures call.collection == c && call.BulkInsert? ==>
      Stored(calls + [call], c) == Stored(calls, c) + multiset(call.keys)
  {
    assert (calls + [call])[..|calls|] == calls;
  }

  /** Bulk inserts add their batches to their own collection and leave the others alone. */
  lemma {:induction false} StoredInserts(calls: seq<DriverCall>, d: Collection, batches: seq<set<string>>, c: Collection)
    ensures Stored(calls + Inserts(d, batches), c) ==
      if d == c then Stored(calls, c) + Total(batches) else Stored(calls, c)
    decreases |batches|
  {
    if batches != [] {
      var front, last := batches[..|batches| - 1], batches[|batches| - 1];
      StoredInserts(calls, d, front, c);
      assert Inserts(d, batches) == Inserts(d, front) + [BulkInsert(d, last)];
      assert calls + Inserts(d, batches) == (calls + Inserts(d, front)) + [BulkInsert(d, last)];
      StoredSnoc(calls + Inserts(d, front), BulkInsert(d, last), c);
      assert Total(batches) == Total(front) + multiset(last);
    } else {
      assert calls + Inserts(d, batches) == calls;
    }
  }

  /** A key that lands in two different batches is stored twice. */
  lemma {:induction false} TotalCountsBatches(batches: seq<set<string>>, n: nat, m: nat, k: string)
    requires n < m < |batches|
    requires k in batches[n] && k in batches[m]
    ensures Total(batches)[k] >= 2
    decreases |batches|
  {
    var front := batches[..|batches| - 1];
    if m < |batches| - 1 {
      TotalCountsBatches(front, n, m, k);
    } else {
      assert k in front[n];
      assert k in Total(front) by {
        TotalHolds(front, n, k);
      }
    }
  }

  lemma {:induction false} TotalHolds(batches: seq<set<string>>, n: nat, k: string)
    requires n < |batches| && k in batches[n]
    ensures k in Total(batches)
    decreases |batches|
  {
    if n < |batches| - 1 {
      var front := batches[..|batches| - 1];
      assert front[n] == batches[n];
      TotalHolds(front, n, k);
    }
  }

  /** Clearing the three collections empties each of them, whatever they held. */
  lemma StoredCleared(prior: seq<DriverCall>, c: Collection)
    ensures Stored(prior + [Delete(CveCollection), Delete(BidCollection), Delete(ExploitDbCollection)], c) == multiset{}
  {
    var a1 := prior + [Delete(CveCollection)];
    var a2 := a1 + [Delete(BidCollection)];
    StoredSnoc(prior, Delete(CveCollection), c);
    StoredSnoc(a1, Delete(BidCollection), c);
    StoredSnoc(a2, Delete(ExploitDbCollection), c);
    assert a2 + [Delete(ExploitDbCollection)] == prior + [Delete(CveCollection), Delete(BidCollection), Delete(ExploitDbCollection)];
  }

  /** After a composition, whatever the collections held before, each collection holds
      exactly the documents of its own batches: the CVE collection those of the years
      2002 to 2016, the Exploit-DB and bugtraq collections those of their feeds. */
  lemma ComposedCollections(prior: seq<DriverCall>, cveFeed: int -> seq<CveEntry>, exploitBatches: seq<set<string>>, bidBatches: seq<set<string>>)
    ensures Stored(prior + CallsFor(cveFeed, exploitBatches, bidBatches), CveCollection) ==
      Total(YearKeys(cveFeed, FirstYear, LastYear + 1))
    ensures Stored(prior + CallsFor(cveFeed, exploitBatches, bidBatches), ExploitDbCollection) == Total(exploitBatches)
    ensures Stored(prior + CallsFor(cveFeed, exploitBatches, bidBatches), BidCollection) == Total(bidBatches)
  {
    var deletes := [Delete(CveCollection), Delete(BidCollection), Delete(ExploitDbCollection)];
    var years := YearKeys(cveFeed, FirstYear, LastYear + 1);
    var cves := Inserts(CveCollection, years);
    var exploits := Inserts(ExploitDbCollection, exploitBatches);
    var bids := Inserts(BidCollection, bidBatches);
    var a := prior + deletes;
    StoredCleared(prior, CveCollection);
    StoredCleared(prior, ExploitDbCollection);
    StoredCleared(prior, BidCollection);
    StoredInserts(a, CveCollection, years, CveCollection);
    StoredInserts(a, CveCollection, years, ExploitDbCollection);
    StoredInserts(a, CveCollection, years, BidCollection);
    var b := a + cves;
    StoredInserts(b, ExploitDbCollection, exploitBatches, ExploitDbCollection);
    StoredInserts(b, ExploitDbCollection, exploitBatches, BidCollection);
    StoredInserts(b, ExploitDbCollection, exploitBatches, CveCollection);
    var c := b + exploits;
    StoredInserts(c, BidCollection, bidBatches, ExploitDbCollection);
    StoredInserts(c, BidCollection, bidBatches, BidCollection);
    StoredInserts(c, BidCollection, bidBatches, CveCollection);
    AppendAssoc(prior, deletes, cves);
    AppendAssoc(prior, deletes + cves, exploits);
    AppendAssoc(prior, (deletes + cves) + exploits, bids);
  }

  /** The keys from product `j` on: its own key, if it has one, and those after it. */
  lemma KeysStep(keyOf: string -> Option<string>, products: seq<BidProduct>, j: nat)
    requires j < |products| && products[j].Text?
    ensures Elems(KeysUntilError(keyOf, products[j..])) ==
      Elems(OptionToSeq(keyOf(products[j].text))) + Elems(KeysUntilError(keyOf, products[j + 1..]))
  {
    assert products[j..][1..] == products[j + 1..];
    ElemsConcat(OptionToSeq(keyOf(products[j].text)), KeysUntilError(keyOf, products[j + 1..]));
  }

  /** Regrouping the calls of consecutive steps, stated over plain sequences. */
  lemma AppendAssoc<T>(a: seq<T>, b: seq<T>, c: seq<T>)
    ensures (a + b) + c == a + (b + c)
  {
  }

  class DBComposer {
    /** The calls made on the database driver so far. */
    var driverCalls: seq<DriverCall>

    /** A composer whose driver has not been called yet. */
    constructor ()
      ensures driverCalls == []
    {
      driverCalls := [];
    }

    /** `compose_vuln_db`: clears the three collections, then inserts the CVE keys of each
        year from 2002 to 2016, then the Exploit-DB keys, then the bugtraq keys; every
        feed gets its own set of keys. `cveFeed(y)` is the decoded NVD feed of year `y`,
        `exploitCsv` the decoded CSV file, `bidLines` the decoded lines of the bugtraq file. */
    method ComposeVulnDb(cveFeed: int -> seq<CveEntry>, exploitCsv: string, bidLines: seq<BidLine>)
      modifies this
      ensures driverCalls == old(driverCalls) + ComposeCalls(cveFeed, exploitCsv, bidLines)
    {
      driverCalls := driverCalls + [Delete(CveCollection), Delete(BidCollection), Delete(ExploitDbCollection)];
      ghost var cleared := driverCalls;
      var year := FirstYear;
      while year < LastYear + 1
        invariant FirstYear <= year <= LastYear + 1
        invariant driverCalls == cleared + Inserts(CveCollection, YearKeys(cveFeed, FirstYear, year))
      {
        var cves := GetCveListFromFile(cveFeed(year));
        ghost var done := YearKeys(cveFeed, FirstYear, year);
        assert YearKeys(cveFeed, FirstYear, year + 1) == done + [cves];
        InsertsSnoc(CveCollection, done, cves);
        AppendAssoc(cleared, Inserts(CveCollection, done), [BulkInsert(CveCollection, cves)]);
        driverCalls := driverCalls + [BulkInsert(CveCollection, cves)];
        year := year + 1;
      }
      GetAndInsertExploitDbFromCsv(exploitCsv);
      GetAndInsertBugTraqsFromFile(bidLines);
      ghost var o, d := old(driverCalls), [Delete(CveCollection), Delete(BidCollection), Delete(ExploitDbCollection)];
      ghost var c := Inserts(CveCollection, YearKeys(cveFeed, FirstYear, LastYear + 1));
      ghost var e := Inserts(ExploitDbCollection, ExploitBatches(exploitCsv));
      ghost var b := Inserts(BidCollection, Batches(BidGroups(bidLines)));
      AppendAssoc(o, d, c);
      AppendAssoc(o, d + c, e);
      AppendAssoc(o, (d + c) + e, b);
    }

    /** `__get_and_insert_bug_traqs_from_file`: every line adds the keys of its products to
        the set until an error ends its `try` block; after every line the set is inserted
        and cleared when it holds more than 8000 keys; at the end what is left is inserted
        if anything is. */
    method GetAndInsertBugTraqsFromFile(lines: seq<BidLine>)
      modifies this
      ensures driverCalls == old(driverCalls) + Inserts(BidCollection, Batches(BidGroups(lines)))
    {
      var counter := 0;
      var items: set<string> := {};
      ghost var flushed: seq<set<string>> := [];
      var i := 0;
      while i < |lines|
        invariant 0 <= i <= |lines| && counter == i
        invariant Feed(BidGroups(lines[..i])) == Batcher(items, flushed)
        invariant driverCalls == old(driverCalls) + Inserts(BidCollection, flushed)
      {
        counter := counter + 1;
        ghost var before := items;
        match lines[i] {
          case Malformed =>
          case Record(id, products) =>
            items := AddKeysUntilError(items, p => BidProductKey(id, p), products);
        }
        assert items == before + Elems(BidLineKeys(lines[i]));
        BidGroupsPrefix(lines, i);
        if |items| > Threshold {
          InsertsSnoc(BidCollection, flushed, items);
          AppendAssoc(old(driverCalls), Inserts(BidCollection, flushed), [BulkInsert(BidCollection, items)]);
          driverCalls := driverCalls + [BulkInsert(BidCollection, items)];
          flushed := flushed + [items];
          items := {};
        }
        i := i + 1;
      }
      assert lines[..i] == lines;
      if |items| > 0 {
        InsertsSnoc(BidCollection, flushed, items);
        AppendAssoc(old(driverCalls), Inserts(BidCollection, flushed), [BulkInsert(BidCollection, items)]);
        driverCalls := driverCalls + [BulkInsert(BidCollection, items)];
        flushed := flushed + [items];
        items := {};
      }
    }

    /** The `try` block of one bugtraq record: each product in turn adds its key, if
        `keyOf` gives one, until a product that is not a string raises and ends the block. */
    static method AddKeysUntilError(items: set<string>, keyOf: string -> Option<string>, products: seq<BidProduct>)
      returns (r: set<string>)
      ensures r == items + Elems(KeysUntilError(keyOf, products))
    {
      r := items;
      var j := 0;
      assert products[j..] == products;
      while j < |products|
        invariant 0 <= j <= |products|
        invariant r + Elems(KeysUntilError(keyOf, products[j..])) == items + Elems(KeysUntilError(keyOf, products))
      {
        match products[j] {
          case NotText =>
            assert r == items + Elems(KeysUntilError(keyOf, products));
            break;
          case Text(product) =>
            KeysStep(keyOf, products, j);
            match keyOf(product) {
              case None =>
              case Some(item) =>
                if item !in r {
                  r := r + {item};
                }
            }
        }
        j := j + 1;
      }
    }

    /** `__get_and_insert_exploit_db_from_csv`: every searched row adds its keys to the set
        and is followed by the size check; skipped rows are not; the final insert happens
        only if the set is not empty. */
    method GetAndInsertExploitDbFromCsv(content: string)
      modifies this
      ensures driverCalls == old(driverCalls) + Inserts(ExploitDbCollection, ExploitBatches(content))
    {
      var lines := Split(content, '\n');
      var items: set<string> := {};
      ghost var flushed: seq<set<string>> := [];
      var i := 0;
      while i < |lines|
        invariant 0 <= i <= |lines|
        invariant Feed(ExploitGroups(lines[..i])) == Batcher(items, flushed)
        invariant driverCalls == old(driverCalls) + Inserts(ExploitDbCollection, flushed)
      {
        ExploitGroupsPrefix(lines, i);
        var row := ExploitRowKeys(lines[i]);
        match row {
          case None =>
          case Some(keys) =>
            FeedLast(ExploitGroups(lines[..i]), keys);
            items := AddKeys(items, keys);
            if |items| > Threshold {
              InsertsSnoc(ExploitDbCollection, flushed, items);
              AppendAssoc(old(driverCalls), Inserts(ExploitDbCollection, flushed), [BulkInsert(ExploitDbCollection, items)]);
              driverCalls := driverCalls + [BulkInsert(ExploitDbCollection, items)];
              flushed := flushed + [items];
              items := {};
            }
        }
        i := i + 1;
      }
      assert lines[..i] == lines;
      if |items| > 0 {
        InsertsSnoc(ExploitDbCollection, flushed, items);
        AppendAssoc(old(driverCalls), Inserts(ExploitDbCollection, flushed), [BulkInsert(ExploitDbCollection, items)]);
        driverCalls := driverCalls + [BulkInsert(ExploitDbCollection, items)];
        flushed := flushed + [items];
        items := {};
      }
    }

    /** The keys of one searched row added one at a time, each only if it is not there yet. */
    static method AddKeys(items: set<string>, keys: seq<string>) returns (r: set<string>)
      ensures r == items + Elems(keys)
    {
      r := items;
      var j := 0;
      while j < |keys|
        invariant 0 <= j <= |keys|
        invariant r == items + Elems(keys[..j])
      {
        assert keys[..j + 1] == keys[..j] + [keys[j]];
        ElemsSnoc(keys[..j], keys[j]);
        if keys[j] !in r {
          r := r + {keys[j]};
        }
        j := j + 1;
      }
      assert keys[..j] == keys;
    }

    /** `__get_cve_list_from_file`: the key set of one year's entries. Every entry's product
        identifiers with more than four `:`-separated fields add `id#field3#field4`. */
    static method GetCveListFromFile(entries: seq<CveEntry>) returns (cveSet: set<string>)
      ensures cveSet == CveKeys(entries)
    {
      cveSet := {};
      var i := 0;
      while i < |entries|
        invariant 0 <= i <= |entries|
        invariant cveSet == CveKeys(entries[..i])
      {
        var entry := entries[i];
        assert entries[..i + 1][..i] == entries[..i];
        var j := 0;
        while j < |entry.products|
          invariant 0 <= j <= |entry.products|
          invariant cveSet == CveKeys(entries[..i]) + EntryKeys(entry.id, entry.products[..j])
        {
          assert entry.products[..j + 1][..j] == entry.products[..j];
          var splittedProduct := Split(entry.products[j], ':');
          if |splittedProduct| > 4 {
            var item := entry.id + "#" + splittedProduct[3] + "#" + splittedProduct[4];
            if item !in cveSet {
              cveSet := cveSet + {item};
            }
          }
          j := j + 1;
        }
        assert entry.products[..j] == entry.products;
        i := i + 1;
      }
      assert entries[..i] == entries;
    }
  }
}
