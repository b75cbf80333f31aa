/**
 * The per-record rules that turn one raw record of a feed into `id#product#version`
 * keys (dagda/vulnDB/db_composer.py): one product identifier of an NVD CVE entry,
 * one CSV row of the Exploit-DB file, one product string of a bugtraq JSON line.
 */
module FeedRecords {
  import opened Wrappers
  import opened PyText
  import opened VersionPatterns

  /** The key under which a (source id, product, version) triple is stored and deduplicated. */
  function Key(id: string, product: string, version: string): string {
    id + "#" + product + "#" + version
  }

  /** When no part holds `#`, a key splits back into its source id, product and version, so
      two different triples of that kind never share a key. */
  lemma KeyParts(id: string, product: string, version: string)
    requires '#' !in id && '#' !in product && '#' !in version
    ensures Split(Key(id, product, version), '#') == [id, product, version]
  {
    var parts := [id, product, version];
    assert Join(parts[1..], '#') == product + "#" + version by {
      assert parts[1..][1..] == [version];
    }
    assert Join(parts, '#') == id + "#" + Join(parts[1..], '#');
    assert id + "#" + (product + "#" + version) == Key(id, product, version);
    SplitJoin(parts, '#');
  }

  // ---- NVD CVE feed ----

  /** One CVE entry after XML decoding: its `id` attribute and the text of each
      `product` element of its vulnerable-software list (empty when the list is absent). */
  datatype CveEntry = CveEntry(id: string, products: seq<string>)

  /** The key one product identifier contributes: fields 3 and 4 of its `:`-split, taken as
      they are, when there are more than four fields; nothing otherwise. */
  function CveProductKey(id: string, product: string): Option<string> {
    var fields := Split(product, ':');
    if |fields| > 4 then Some(Key(id, fields[3], fields[4])) else None
  }

  /** For any identifier made of `:`-free fields joined by `:`: five or more fields give the
      key of the fourth and fifth, without any change of case; four or fewer give nothing. */
  lemma CveKeyOfFields(id: string, fields: seq<string>)
    requires |fields| >= 1
    requires forall k :: 0 <= k < |fields| ==> ':' !in fields[k]
    ensures CveProductKey(id, Join(fields, ':')) ==
      if |fields| > 4 then Some(id + "#" + fields[3] + "#" + fields[4]) else None
  {
    SplitJoin(fields, ':');
  }

  // ---- Exploit-DB CSV feed ----

  /** `f[1:len(f) - 1]`: the field without its first and last characters (the quotes). */
  function Dequote(f: string): (r: string)
    ensures |f| >= 2 ==> r == f[1..|f| - 1]
    ensures |f| < 2 ==> r == []
  {
    Slice(f, 1, |f| - 1)
  }

  /** The part of a hyphenated description that is searched for versions: the text before
      the first hyphen, stripped and lower-cased. */
  function ExploitText(description: string): string
    requires '-' in description
  {
    Lower(Strip(description[..CharIndex(description, '-')]))
  }

  /** The keys one searched description gives: one per match of `[0-9]+(\.[0-9]+)+`, in
      order; the product is the stripped text before the first index of the first match. */
  function ExploitKeys(id: string, text: string): seq<string> {
    var ms := FindAllDotted(text, 0);
    if ms == [] then []
    else
      var first := text[ms[0].start..ms[0].end];
      var product := Strip(Slice(text, 0, Find(text, first)));
      seq(|ms|, k requires 0 <= k < |ms| => Key(id, product, text[ms[k].start..ms[k].end]))
  }

  /** One line of the CSV file. `None`: the row is skipped before the flush check (header,
      fewer than four fields, or no hyphen in the description); `Some(keys)`: the row was
      searched (possibly finding no version) and the flush check follows it. */
  function ExploitRowKeys(line: string): Option<seq<string>> {
    var fields := Split(line, ',');
    if fields[0] == "id" || |fields| <= 3 then None
    else
      var description := Dequote(fields[2]);
      if '-' !in description then None
      else Some(ExploitKeys(fields[0], ExploitText(description)))
  }

  /** For a row made of `,`-free fields: it is searched exactly when its first field is not
      `id`, it has at least four fields and its de-quoted third field holds a hyphen; the
      id is the first field and the description the de-quoted third one. */
  lemma ExploitRowOfFields(fields: seq<string>)
    requires |fields| >= 1
    requires forall k :: 0 <= k < |fields| ==> ',' !in fields[k]
    ensures ExploitRowKeys(Join(fields, ',')).Some? <==>
      fields[0] != "id" && |fields| > 3 && '-' in Dequote(fields[2])
    ensures ExploitRowKeys(Join(fields, ',')).Some? ==>
      ExploitRowKeys(Join(fields, ',')).value == ExploitKeys(fields[0], ExploitText(Dequote(fields[2])))
  {
    SplitJoin(fields, ',');
  }

  /** The header row is skipped whatever follows its first field. */
  lemma ExploitHeaderSkipped(rest: string)
    ensures ExploitRowKeys("id") == None
    ensures ExploitRowKeys("id," + rest) == None
  {
    var fields := ["id"] + Split(rest, ',');
    assert fields[1..] == Split(rest, ',');
    assert Join(fields, ',') == "id," + rest;
    SplitJoin(fields, ',');
    assert Split("id", ',') == ["id"];
  }

  /** The searched text stops before the first hyphen of the description. */
  lemma ExploitTextHasNoHyphen(description: string)
    requires '-' in description
    ensures '-' !in ExploitText(description)
  {
    var head := description[..CharIndex(description, '-')];
    assert '-' !in head;
    var a := |head| - |LStrip(head)|;
    var t := Strip(head);
    InfixExcludes(head, a, a + |t|, '-');
    LowerExcludes(t, '-');
  }

  /** A character missing from a string is missing from each of its slices. */
  lemma InfixExcludes(s: string, a: nat, b: nat, c: char)
    requires a <= b <= |s| && c !in s
    ensures c !in s[a..b]
  {
    forall k | 0 <= k < b - a
      ensures s[a..b][k] != c
    {
      assert s[a..b][k] == s[a + k];
    }
  }

  /** Lower-casing adds no character other than a small letter. */
  lemma LowerExcludes(s: string, c: char)
    requires c !in s && !IsUpper(c) && !('a' <= c <= 'z')
    ensures c !in Lower(s)
  {
    var r := Lower(s);
    forall k | 0 <= k < |r|
      ensures r[k] != c
    {
      if !IsUpper(s[k]) {
        assert r[k] == s[k];
      }
    }
  }

  /** DigitRun is the first index at which the digits stop. */
  lemma DigitRunExact(s: string, i: nat, m: nat)
    requires i <= m < |s|
    requires forall k :: i <= k < m ==> IsDigit(s[k])
    requires !IsDigit(s[m])
    ensures DigitRun(s, i) == m
  {
  }

  /** A string that starts like a dotted match makes the exploit pattern match there too. */
  lemma DottedAtCopy(s: string, a: nat, f: nat, n: nat)
    requires a + n <= |s| && f + n <= |s|
    requires s[f..f + n] == s[a..a + n]
    requires DottedAt(s, a) && DigitRun(s, a) + 2 <= a + n
    ensures DottedAt(s, f)
  {
    var d := DigitRun(s, a);
    var g := d - a;
    var t, u := s[f..f + n], s[a..a + n];
    forall k | f <= k < f + g ensures IsDigit(s[k]) {
      assert s[k] == t[k - f] == u[k - f] == s[a + (k - f)];
    }
    assert s[f + g] == t[g] == u[g] == s[d];
    assert s[f + g + 1] == t[g + 1] == u[g + 1] == s[d + 1];
    DigitRunExact(s, f, f + g);
  }

  /** Wherever the text of a dotted match occurs, the exploit pattern matches too. */
  lemma DottedMatchCopy(s: string, a: nat, f: nat)
    requires DottedAt(s, a)
    requires OccursAt(s, s[a..VersionEnd(s, a)], f)
    ensures DottedAt(s, f)
  {
    var d := DigitRun(s, a);
    var e := VersionEnd(s, a);
    assert e == GroupsEnd(s, DigitRun(s, d + 1));
    var n := d + 2 - a;
    assert s[f..f + n] == s[f..f + (e - a)][..n];
    assert s[a..a + n] == s[a..e][..n];
    DottedAtCopy(s, a, f, n);
  }

  /** Python's `index` of the first match's text is the first match's own start, so the
      exploit product is the stripped text strictly before the first version. */
  lemma ExploitFirstMatchIndex(text: string)
    requires FindAllDotted(text, 0) != []
    ensures var m := FindAllDotted(text, 0)[0];
      Find(text, text[m.start..m.end]) == m.start
  {
    var m := FindAllDotted(text, 0)[0];
    var v := text[m.start..m.end];
    assert OccursAt(text, v, m.start);
    var f := Find(text, v);
    if f < m.start {
      DottedMatchCopy(text, m.start, f);
      FindAllLeftmost(text, 0, f);
      assert false;
    }
  }

  /** What a searched description gives: one key per match, in the order `finditer` yields
      them; each version is a dotted version of the text; all share the stripped text before
      the first match as their product. */
  lemma ExploitKeysOfMatches(id: string, text: string)
    ensures var ms := FindAllDotted(text, 0);
      |ExploitKeys(id, text)| == |ms| &&
      forall k :: 0 <= k < |ms| ==>
        var v := text[ms[k].start..ms[k].end];
        && IsVersion(v) && '.' in v && EndsVersion(text, ms[k].end)
        && ExploitKeys(id, text)[k] == Key(id, Strip(text[..ms[0].start]), v)
  {
    var ms := FindAllDotted(text, 0);
    if ms != [] {
      ExploitFirstMatchIndex(text);
      forall k | 0 <= k < |ms|
        ensures var v := text[ms[k].start..ms[k].end]; IsVersion(v) && '.' in v && EndsVersion(text, ms[k].end)
      {
        DottedMatch(text, ms[k].start);
      }
    }
  }

  // ---- Bugtraq JSON feed ----

  /** One element of a line's `vuln_products`: a string, or any other JSON value (on which
      `re.search` raises). */
  datatype BidProduct = Text(text: string) | NotText

  /** One line of the decompressed file: `Malformed` when decoding it, parsing its JSON, or
      reading `bugtraq_id` or `vuln_products` raised; otherwise the id (as `str` renders
      it) and the products. */
  datatype BidLine = Malformed | Record(id: string, products: seq<BidProduct>)

  /** The version the composer takes from the match at `i`: the whole match, stripped, with
      a leading hyphen dropped. */
  function BidMatchVersion(product: string, i: nat): string
    requires DelimitedAt(product, i)
  {
    var stripped := Strip(product[i..DelimitedEnd(product, i)]);
    if |stripped| > 0 && stripped[0] == '-' then stripped[1..] else stripped
  }

  /** `s[:s.index(version) - 1]`, stripped and lower-cased. */
  function BidProductName(product: string, version: string): string {
    Lower(Strip(Slice(product, 0, Find(product, version) - 1)))
  }

  /** The key one product string gives: the version is taken from the first match of
      `[\s\-]([0-9]+(\.[0-9]+)*)`, and an empty version would give nothing. */
  function BidProductKey(id: string, product: string): Option<string> {
    match SearchDelimited(product, 0)
    case None => None
    case Some(i) =>
      var version := BidMatchVersion(product, i);
      if version == [] then None else Some(Key(id, BidProductName(product, version), version))
  }

  /** The delimiter is the only character of the match that is not part of the version. */
  lemma BidVersionOfMatch(product: string, i: nat)
    requires DelimitedAt(product, i)
    ensures BidMatchVersion(product, i) == product[i + 1..DelimitedEnd(product, i)]
  {
    var e := DelimitedEnd(product, i);
    var group, v := product[i..e], product[i + 1..e];
    assert group == [product[i]] + v;
    if IsSpace(product[i]) {
      assert Strip(group) == v by {
        StripTrimmed(v);
        StripLeadingSpace(product[i], v);
      }
    } else {
      assert Strip(group) == group by {
        StripTrimmed(group);
      }
      assert group[1..] == v;
    }
  }

  /** A product string gives no key exactly when no white space or hyphen in it is
      followed by a digit. */
  lemma BidKeyExists(id: string, product: string)
    ensures BidProductKey(id, product).Some? <==> exists i :: DelimitedAt(product, i)
  {
    var r := SearchDelimited(product, 0);
    if r.Some? {
      BidVersionOfMatch(product, r.value);
      assert BidMatchVersion(product, r.value) != [];
    }
  }

  /** At the leftmost match `i`: the version is the digit-and-dot run after the delimiter, a
      non-empty version of maximal length; its first index in the string is at most `i + 1`,
      so `index` never fails and the slice bound is at least -1. */
  lemma BidKeyAtMatch(id: string, product: string, i: nat)
    requires DelimitedAt(product, i)
    requires forall q :: 0 <= q < i ==> !DelimitedAt(product, q)
    ensures var e := DelimitedEnd(product, i);
      var v := product[i + 1..e];
      && IsVersion(v) && EndsVersion(product, e)
      && 0 <= Find(product, v) <= i + 1
      && BidProductKey(id, product) == Some(Key(id, BidProductName(product, v), v))
  {
    var v := product[i + 1..DelimitedEnd(product, i)];
    assert 0 <= Find(product, v) <= i + 1 by {
      assert OccursAt(product, v, i + 1);
    }
    assert BidProductKey(id, product) == Some(Key(id, BidProductName(product, v), v)) by {
      assert SearchDelimited(product, 0) == Some(i);
      BidVersionOfMatch(product, i);
    }
  }

  /** When the version does not occur earlier in the string, the product is exactly the
      text before the delimiter, stripped and lower-cased. */
  lemma BidProductBeforeMatch(id: string, product: string, i: nat)
    requires DelimitedAt(product, i)
    requires forall q :: 0 <= q < i ==> !DelimitedAt(product, q)
    requires Find(product, product[i + 1..DelimitedEnd(product, i)]) == i + 1
    ensures BidProductKey(id, product) ==
      Some(Key(id, Lower(Strip(product[..i])), product[i + 1..DelimitedEnd(product, i)]))
  {
    BidKeyAtMatch(id, product, i);
  }

  // ---- An earlier copy of the version sets the product ----

  /** A product string whose version text also occurs before the match. */
  const EarlyCopy: string := "Foo1.0 1.0"

  /** The search stops at the space, position 6: no earlier character is white space or a
      hyphen. */
  lemma EarlyCopySearch()
    ensures SearchDelimited(EarlyCopy, 0) == Some(6)
  {
    var p := EarlyCopy;
    assert DelimitedAt(p, 6);
    forall q | 0 <= q < 6 ensures !DelimitedAt(p, q) {
      assert p[q] in "Foo1.0";
    }
    forall q | 6 < q ensures !DelimitedAt(p, q) {
      if q < 9 {
        assert p[q] in "1.";
      }
    }
  }

  /** The version of that match is the trailing `1.0`. */
  lemma EarlyCopyVersion()
    ensures DelimitedAt(EarlyCopy, 6) && EarlyCopy[7..DelimitedEnd(EarlyCopy, 6)] == "1.0"
  {
    var p := EarlyCopy;
    assert DelimitedAt(p, 6);
    assert p[8] == '.' && IsDigit(p[9]);
    assert !EndsVersion(p, 8);
    assert !IsVersion(p[7..9]) by {
      assert p[7..9][1] == '.';
    }
    assert DelimitedEnd(p, 6) == 10;
    assert p[7..10] == "1.0";
  }

  /** `index` finds the copy of `1.0` at position 3, before the match. */
  lemma EarlyCopyFind()
    ensures Find(EarlyCopy, "1.0") == 3
  {
    var p := EarlyCopy;
    assert OccursAt(p, "1.0", 3) by {
      assert p[3..6] == "1.0";
    }
    forall q | 0 <= q < 3 ensures !OccursAt(p, "1.0", q) {
      assert p[q..q + 3][0] == p[q];
    }
  }

  /** So the product is `s[:2]`, lower-cased: `fo`. */
  lemma EarlyCopyName()
    ensures BidProductName(EarlyCopy, "1.0") == "fo"
  {
    var p := EarlyCopy;
    EarlyCopyFind();
    assert Slice(p, 0, 2) == "Fo" by {
      assert p[0..2] == "Fo";
    }
    StripTrimmed("Fo");
    var r := Lower("Fo");
    assert IsUpper("Fo"[0]) && !IsUpper("Fo"[1]);
    assert r[0] == 'f' && r[1] == 'o';
    assert r == "fo";
  }

  /** The bugtraq rule gives `7#fo#1.0` for `Foo1.0 1.0`: the product comes from the copy
      of the version at position 3, not from the text before the match. */
  lemma EarlyCopyKey()
    ensures BidProductKey("7", EarlyCopy) == Some("7#fo#1.0")
  {
    var p := EarlyCopy;
    EarlyCopySearch();
    EarlyCopyVersion();
    BidKeyAtMatch("7", p, 6);
    EarlyCopyName();
    EarlyCopyKeyText();
  }

  /** The key text of that example, spelt out. */
  lemma EarlyCopyKeyText()
    ensures Key("7", "fo", "1.0") == "7#fo#1.0"
  {
    var k := Key("7", "fo", "1.0");
    assert k == "7" + "#" + "fo" + "#" + "1.0";
    assert |k| == 8;
    assert k[0] == '7' && k[1] == '#' && k[2] == 'f' && k[3] == 'o';
    assert k[4] == '#' && k[5] == '1' && k[6] == '.' && k[7] == '0';
  }

  /** The keys that `keyOf` gives for the products of one record, in order, until a
      product that is not a string raises. */
  function KeysUntilError(keyOf: string -> Option<string>, products: seq<BidProduct>): seq<string>
    decreases |products|
  {
    if products == [] then []
    else match products[0]
      case NotText => []
      case Text(p) => OptionToSeq(keyOf(p)) + KeysUntilError(keyOf, products[1..])
  }

  /** The keys the products of one record add to the set. */
  function ProductKeys(id: string, products: seq<BidProduct>): seq<string> {
    KeysUntilError(p => BidProductKey(id, p), products)
  }

  /** A string product adds its own key, if it has one, before the keys of the rest. */
  lemma ProductKeysText(id: string, products: seq<BidProduct>)
    requires products != [] && products[0].Text?
    ensures ProductKeys(id, products) == OptionToSeq(BidProductKey(id, products[0].text)) + ProductKeys(id, products[1..])
  {
  }

  /** The keys one line adds before its `try` block ends, normally or by an exception. */
  function BidLineKeys(line: BidLine): seq<string> {
    match line
    case Malformed => []
    case Record(id, products) => ProductKeys(id, products)
  }

  /** Every product before `j` is a string. */
  predicate ReachedWithoutError(products: seq<BidProduct>, j: nat) {
    j <= |products| && forall m :: 0 <= m < j ==> products[m].Text?
  }

  lemma {:induction false} KeysStopAtError(keyOf: string -> Option<string>, products: seq<BidProduct>, j: nat)
    requires j < |products| && products[j].NotText?
    ensures KeysUntilError(keyOf, products) == KeysUntilError(keyOf, products[..j])
    decreases j
  {
    if j > 0 && products[0].Text? {
      KeysStopAtError(keyOf, products[1..], j - 1);
      assert products[1..][..j - 1] == products[..j][1..];
    }
  }

  /** A product that is not a string ends the line: the keys of the products before it
      stay, the ones after it are never computed. */
  lemma ProductKeysStopAtError(id: string, products: seq<BidProduct>, j: nat)
    requires j < |products| && products[j].NotText?
    ensures ProductKeys(id, products) == ProductKeys(id, products[..j])
  {
    KeysStopAtError(p => BidProductKey(id, p), products, j);
  }

  /** Product `j` is reached without an error and `keyOf` gives `key` for it. */
  predicate GivesKey(keyOf: string -> Option<string>, products: seq<BidProduct>, j: int, key: string) {
    && 0 <= j < |products|
    && ReachedWithoutError(products, j)
    && products[j].Text?
    && keyOf(products[j].text) == Some(key)
  }

  lemma {:induction false} KeysSound(keyOf: string -> Option<string>, products: seq<BidProduct>, key: string)
    requires key in KeysUntilError(keyOf, products)
    ensures exists j :: GivesKey(keyOf, products, j, key)
    decreases |products|
  {
    var rest := products[1..];
    if key in OptionToSeq(keyOf(products[0].text)) {
      assert GivesKey(keyOf, products, 0, key);
    } else {
      KeysSound(keyOf, rest, key);
      var j :| GivesKey(keyOf, rest, j, key);
      assert products[j + 1] == rest[j];
      assert GivesKey(keyOf, products, j + 1, key);
    }
  }

  lemma {:induction false} KeysComplete(keyOf: string -> Option<string>, products: seq<BidProduct>, j: nat, key: string)
    requires GivesKey(keyOf, products, j, key)
    ensures key in KeysUntilError(keyOf, products)
    decreases j
  {
    assert products[0].Text?;
    if j > 0 {
      var rest := products[1..];
      assert rest[j - 1] == products[j];
      assert GivesKey(keyOf, rest, j - 1, key);
      KeysComplete(keyOf, rest, j - 1, key);
    }
  }

  /** A key comes from a line exactly when some product reached before any error gives it. */
  lemma ProductKeysMembers(id: string, products: seq<BidProduct>, key: string)
    ensures key in ProductKeys(id, products) <==>
      exists j :: 0 <= j < |products| && ReachedWithoutError(products, j) && products[j].Text? &&
        BidProductKey(id, products[j].text) == Some(key)
  {
    var keyOf := p => BidProductKey(id, p);
    if key in ProductKeys(id, products) {
      KeysSound(keyOf, products, key);
      var j :| GivesKey(keyOf, products, j, key);
      assert ReachedWithoutError(products, j);
    }
    if exists j :: 0 <= j < |products| && ReachedWithoutError(products, j) && products[j].Text? &&
         BidProductKey(id, products[j].text) == Some(key) {
      var j :| 0 <= j < |products| && ReachedWithoutError(products, j) && products[j].Text? &&
        BidProductKey(id, products[j].text) == Some(key);
      assert GivesKey(keyOf, products, j, key);
      KeysComplete(keyOf, products, j, key);
    }
  }
}
