/**
 * scripts/merge_with_dataportals_org.py: the registry's own portals, converted
 * to the row format of dataportals.org and merged into its rows, sorted by name.
 */
module MergeWithDataportals {
  import opened Text
  import opened Ordering
  import opened Catalog

  // ---------------------------------------------------------------------------
  // format_name

  /** A portal's slug: its host with every `www.` removed and every `.` made `-`. */
  function FormatName(netloc: string): string {
    Replace(Replace(netloc, "www.", ""), ".", "-")
  }

  /** The slug has no `.`; it is the host without `www.`, with each `.` turned into `-` in place. */
  lemma FormatNameSpec(netloc: string)
    ensures '.' !in FormatName(netloc)
    ensures var bare := Replace(netloc, "www.", "");
            |FormatName(netloc)| == |bare| &&
            forall i :: 0 <= i < |bare| ==> FormatName(netloc)[i] == if bare[i] == '.' then '-' else bare[i]
  {
    var bare := Replace(netloc, "www.", "");
    ReplaceChar(bare, '.', '-');
    ReplaceDropsChar(bare, ".", "-");
  }

  // ---------------------------------------------------------------------------
  // format_tags

  /** The member states of the European Union, by country code. */
  const EuCountryCodes: seq<string> := [
    "AT", "BE", "HR", "BG", "CY", "CZ", "DK", "EE", "FI", "FR", "DE", "GR",
    "HU", "IE", "IT", "LV", "LT", "LU", "MT", "NL", "PL", "PT", "RO", "SK",
    "SI", "ES", "SE", "GB"]

  /** The platforms dataportals.org has a tag for. */
  predicate TaggedPlatform(p: string) {
    p == "CKAN" || p == "DKAN" || p == "udata"
  }

  /** The fields of a registry row the tags are made of. */
  predicate TagFields(row: Row) {
    "country_name" in row && "country_code" in row && "software_platform" in row
  }

  /**
   * The tags of a portal, in order: its country name without spaces in lower
   * case, its level, `eu-official` for a member state, and its platform when it
   * is one of the tagged ones.
   */
  function FormatTags(row: Row): seq<string>
    requires TagFields(row)
  {
    var code := row["country_code"];
    var platform := Partition(row["software_platform"], ';').0;
    [Lower(Replace(row["country_name"], " ", "")), if code == "EU" then "level.global" else "level.national"]
    + (if code in EuCountryCodes then ["eu-official"] else [])
    + (if TaggedPlatform(platform) then [Lower(platform)] else [])
  }

  lemma LowerKeepsOut(s: string, c: char)
    requires c !in s && !('A' <= c <= 'Z') && !('a' <= c <= 'z')
    ensures c !in Lower(s)
  {
  }

  /**
   * Two to four tags: the squeezed country name, then `level.global` exactly
   * for `EU` and `level.national` otherwise.
   */
  lemma FormatTagsShape(row: Row)
    requires TagFields(row)
    ensures var tags := FormatTags(row);
            2 <= |tags| <= 4 &&
            tags[0] == Lower(Replace(row["country_name"], " ", "")) &&
            (tags[1] == "level.global" <==> row["country_code"] == "EU") &&
            (tags[1] == "level.national" <==> row["country_code"] != "EU")
  {
  }

  /** `EU` itself is not a member state, so the union's own portal is not tagged `eu-official`. */
  lemma EuNotMember()
    ensures "EU" !in EuCountryCodes
  {
  }

  /** After the first tag, `eu-official` appears exactly for a member state. */
  lemma EuOfficialTag(row: Row)
    requires TagFields(row)
    ensures "eu-official" in FormatTags(row)[1..] <==> row["country_code"] in EuCountryCodes
  {
    var code := row["country_code"];
    var member := code in EuCountryCodes;
    var platform := Partition(row["software_platform"], ';').0;
    var level := if code == "EU" then "level.global" else "level.national";
    var eu := if member then ["eu-official"] else [];
    var plat := if TaggedPlatform(platform) then [Lower(platform)] else [];
    var rest := [level] + eu + plat;
    assert FormatTags(row)[1..] == rest;
    assert |level| != |"eu-official"|;
    if TaggedPlatform(platform) {
      assert |Lower(platform)| == |platform| < |"eu-official"|;
    }
    assert "eu-official" !in plat;
    assert "eu-official" in rest <==> "eu-official" in eu;
  }

  /** The last tag is the lower-cased platform exactly when the platform is CKAN, DKAN or udata. */
  lemma PlatformTag(row: Row)
    requires TagFields(row)
    ensures var platform := Partition(row["software_platform"], ';').0;
            var tags := FormatTags(row);
            (TaggedPlatform(platform) <==> |tags| > 2 && tags[|tags| - 1] != "eu-official") &&
            (TaggedPlatform(platform) ==> tags[|tags| - 1] == Lower(platform))
  {
    var platform := Partition(row["software_platform"], ';').0;
    if TaggedPlatform(platform) {
      assert |Lower(platform)| == |platform| < |"eu-official"|;
    }
  }

  /** No tag holds a space. */
  lemma TagsWithoutSpaces(row: Row)
    requires TagFields(row)
    ensures forall i :: 0 <= i < |FormatTags(row)| ==> ' ' !in FormatTags(row)[i]
  {
    var platform := Partition(row["software_platform"], ';').0;
    var squeezed := Replace(row["country_name"], " ", "");
    ReplaceDropsChar(row["country_name"], " ", "");
    LowerKeepsOut(squeezed, ' ');
    if TaggedPlatform(platform) {
      LowerKeepsOut(platform, ' ');
    }
  }

  /** The `tags` field, tags joined by spaces, splits back into the tags. */
  lemma TagsRoundTrip(row: Row)
    requires TagFields(row)
    ensures Split(Join(FormatTags(row), ' '), ' ') == FormatTags(row)
  {
    FormatTagsShape(row);
    TagsWithoutSpaces(row);
    SplitJoin(FormatTags(row), ' ');
  }

  // ---------------------------------------------------------------------------
  // format_publisher

  /** `next((p for p in parts if p.startswith('en:')), '')` */
  function FirstEnglish(parts: seq<string>): string
    decreases |parts|
  {
    if parts == [] then []
    else if StartsWith(parts[0], "en:") then parts[0]
    else FirstEnglish(parts[1..])
  }

  /** The English name of a presiding body given as `;`-separated `lang:name` parts. */
  function FormatPublisher(presidingBody: string): string {
    Replace(FirstEnglish(Split(presidingBody, ';')), "en:", "")
  }

  /** The first part starting with `en:` is chosen, or `""` when none does. */
  lemma {:induction false} FirstEnglishSpec(parts: seq<string>)
    ensures (forall i :: 0 <= i < |parts| ==> !StartsWith(parts[i], "en:")) ==> FirstEnglish(parts) == []
    ensures forall j :: 0 <= j < |parts| && StartsWith(parts[j], "en:") &&
                        (forall i :: 0 <= i < j ==> !StartsWith(parts[i], "en:")) ==>
              FirstEnglish(parts) == parts[j]
    decreases |parts|
  {
    if parts != [] {
      FirstEnglishSpec(parts[1..]);
      forall j | 0 <= j < |parts| && StartsWith(parts[j], "en:") &&
                 (forall i :: 0 <= i < j ==> !StartsWith(parts[i], "en:"))
        ensures FirstEnglish(parts) == parts[j]
      {
        if j > 0 {
          assert !StartsWith(parts[0], "en:");
          assert parts[1..][j - 1] == parts[j];
          forall i | 0 <= i < j - 1 ensures !StartsWith(parts[1..][i], "en:") {
            assert parts[1..][i] == parts[i + 1];
          }
        }
      }
      if forall i :: 0 <= i < |parts| ==> !StartsWith(parts[i], "en:") {
        forall i | 0 <= i < |parts| - 1 ensures !StartsWith(parts[1..][i], "en:") {
          assert parts[1..][i] == parts[i + 1];
        }
      }
    }
  }

  /**
   * The publisher is the first `;`-part starting with `en:`, with every `en:`
   * removed, or `""` when no part starts with `en:`; it never holds a `;`.
   */
  lemma FormatPublisherSpec(presidingBody: string)
    ensures ';' !in FormatPublisher(presidingBody)
    ensures var parts := Split(presidingBody, ';');
            (forall i :: 0 <= i < |parts| ==> !StartsWith(parts[i], "en:")) ==> FormatPublisher(presidingBody) == []
    ensures var parts := Split(presidingBody, ';');
            forall j :: 0 <= j < |parts| && StartsWith(parts[j], "en:") &&
                        (forall i :: 0 <= i < j ==> !StartsWith(parts[i], "en:")) ==>
              FormatPublisher(presidingBody) == Replace(parts[j], "en:", "")
  {
    var parts := Split(presidingBody, ';');
    FirstEnglishSpec(parts);
    var chosen := FirstEnglish(parts);
    assert ';' !in chosen by {
      if forall i :: 0 <= i < |parts| ==> !StartsWith(parts[i], "en:") {
      } else {
        var j :| 0 <= j < |parts| && StartsWith(parts[j], "en:");
        FirstIndex(parts, j);
      }
    }
    ReplaceChars(chosen, "en:", "");
  }

  /** Some part starts with `en:`, so there is a first one. */
  lemma {:induction false} FirstIndex(parts: seq<string>, j: int)
    requires 0 <= j < |parts| && StartsWith(parts[j], "en:")
    ensures exists k :: 0 <= k <= j && StartsWith(parts[k], "en:") &&
                        forall i :: 0 <= i < k ==> !StartsWith(parts[i], "en:")
    decreases j
  {
    if exists i :: 0 <= i < j && StartsWith(parts[i], "en:") {
      var i :| 0 <= i < j && StartsWith(parts[i], "en:");
      FirstIndex(parts, i);
    }
  }

  // ---------------------------------------------------------------------------
  // main

  /** An own portal is merged when it has a URL that is not `N/A`. */
  predicate Kept(row: Row)
    requires "url" in row
  {
    row["url"] != [] && row["url"] != "N/A"
  }

  /** The fields of a kept registry row the converted row is made of. */
  predicate OwnFields(row: Row) {
    "url" in row && "title" in row && "presiding_body" in row && "metadata_api_endpoint" in row && TagFields(row)
  }

  /** What reading the registry's own rows demands: a URL in each, and the converted fields in the kept ones. */
  predicate OwnRowsReadable(own: seq<Row>) {
    forall r :: r in own ==> "url" in r && (Kept(r) ==> OwnFields(r))
  }

  /** `[r for r in own if r['url'] and r['url'] != 'N/A']` */
  function KeptRows(own: seq<Row>): (kept: seq<Row>)
    requires forall r :: r in own ==> "url" in r
    ensures forall r :: r in kept <==> r in own && Kept(r)
    decreases |own|
  {
    if own == [] then []
    else
      var rest := KeptRows(own[1..]);
      assert forall r :: r in own <==> r == own[0] || r in own[1..];
      if Kept(own[0]) then [own[0]] + rest else rest
  }

  /** The filter keeps every copy of a kept row and drops every copy of another. */
  lemma {:induction false} KeptRowsCount(own: seq<Row>, r: Row)
    requires forall x :: x in own ==> "url" in x
    requires "url" in r
    ensures multiset(KeptRows(own))[r] == if Kept(r) then multiset(own)[r] else 0
    decreases |own|
  {
    if own != [] {
      KeptRowsCount(own[1..], r);
      assert own == [own[0]] + own[1..];
    }
  }

  /** Filtering a concatenation filters each part and keeps them in order. */
  lemma {:induction false} KeptRowsConcat(a: seq<Row>, b: seq<Row>)
    requires forall x :: x in a ==> "url" in x
    requires forall x :: x in b ==> "url" in x
    ensures KeptRows(a + b) == KeptRows(a) + KeptRows(b)
    decreases |a|
  {
    if a == [] {
      assert a + b == b;
    } else {
      KeptRowsConcat(a[1..], b);
      assert (a + b)[0] == a[0] && (a + b)[1..] == a[1..] + b;
    }
  }

  /** A registry row in the row format of dataportals.org; `netloc` is the host part of a URL. */
  function ConvertOwnRow(r: Row, netloc: string -> string): (out: Row)
    requires OwnFields(r)
    ensures out.Keys == {"name", "title", "url", "publisher", "publisher_classification", "tags", "country", "generator", "api_endpoint"}
  {
    map[
      "name" := FormatName(netloc(r["url"])),
      "title" := r["title"],
      "url" := r["url"],
      "publisher" := FormatPublisher(r["presiding_body"]),
      "publisher_classification" := "Government",
      "tags" := Join(FormatTags(r), ' '),
      "country" := r["country_code"],
      "generator" := r["software_platform"],
      "api_endpoint" := r["metadata_api_endpoint"]]
  }

  /** The converted rows, one per kept row and in the same order. */
  function ConvertAll(kept: seq<Row>, netloc: string -> string): seq<Row>
    requires forall r :: r in kept ==> OwnFields(r)
  {
    seq(|kept|, i requires 0 <= i < |kept| => ConvertOwnRow(kept[i], netloc))
  }

  // The stable sort by name

  predicate Named(rows: seq<Row>) {
    forall i :: 0 <= i < |rows| ==> "name" in rows[i]
  }

  /** Names never decrease along `rows`. */
  predicate SortedByName(rows: seq<Row>)
    requires Named(rows)
  {
    forall i, j :: 0 <= i < j < |rows| ==> !StrLess(rows[j]["name"], rows[i]["name"])
  }

  /** The rows named `n`, in order. */
  function RowsNamed(rows: seq<Row>, n: string): seq<Row>
    requires Named(rows)
    decreases |rows|
  {
    if rows == [] then [] else NamedPart(rows[0], n) + RowsNamed(rows[1..], n)
  }

  function NamedPart(row: Row, n: string): seq<Row>
    requires "name" in row
  {
    if row["name"] == n then [row] else []
  }

  /** Puts `x` before the first row whose name is not smaller than its own. */
  function Insert(x: Row, ys: seq<Row>): (r: seq<Row>)
    requires "name" in x && Named(ys)
    ensures Named(r) && multiset(r) == multiset(ys) + multiset{x}
    decreases |ys|
  {
    if ys == [] then [x]
    else if StrLess(ys[0]["name"], x["name"]) then
      assert ys == [ys[0]] + ys[1..];
      [ys[0]] + Insert(x, ys[1..])
    else [x] + ys
  }

  /** `sorted(rows, key=lambda r: r['name'])` */
  function SortByName(rows: seq<Row>): (r: seq<Row>)
    requires Named(rows)
    ensures Named(r) && multiset(r) == multiset(rows)
    decreases |rows|
  {
    if rows == [] then []
    else
      assert rows == [rows[0]] + rows[1..];
      Insert(rows[0], SortByName(rows[1..]))
  }

  lemma {:induction false} InsertSorted(x: Row, ys: seq<Row>)
    requires "name" in x && Named(ys) && SortedByName(ys)
    ensures SortedByName(Insert(x, ys))
    decreases |ys|
  {
    if ys != [] && StrLess(ys[0]["name"], x["name"]) {
      InsertSorted(x, ys[1..]);
      var r := Insert(x, ys);
      var rest := Insert(x, ys[1..]);
      forall j | 0 < j < |r| ensures !StrLess(r[j]["name"], r[0]["name"]) {
        assert r[j] in multiset(rest);
        assert r[j] == x || r[j] in ys[1..];
        if r[j] == x {
          StrLessAsymmetric(ys[0]["name"], x["name"]);
        } else {
          var k :| 0 <= k < |ys[1..]| && ys[1..][k] == r[j];
          assert ys[k + 1] == r[j];
        }
      }
    } else if ys != [] {
      var r := Insert(x, ys);
      forall i, j | 0 <= i < j < |r| ensures !StrLess(r[j]["name"], r[i]["name"]) {
        if i == 0 {
          assert r[j] == ys[j - 1];
          if j - 1 > 0 {
            StrNotLessTransitive(x["name"], ys[0]["name"], ys[j - 1]["name"]);
          }
        } else {
          assert r[i] == ys[i - 1] && r[j] == ys[j - 1];
        }
      }
    }
  }

  lemma RowsNamedCons(rows: seq<Row>, n: string)
    requires Named(rows) && rows != []
    ensures RowsNamed(rows, n) == NamedPart(rows[0], n) + RowsNamed(rows[1..], n)
  {
  }

  /** The rows of one name keep their relative order through an insertion. */
  lemma {:induction false} InsertKeepsOrder(x: Row, ys: seq<Row>, n: string)
    requires "name" in x && Named(ys)
    ensures RowsNamed(Insert(x, ys), n) == NamedPart(x, n) + RowsNamed(ys, n)
    decreases |ys|
  {
    if ys == [] {
      RowsNamedCons([x], n);
    } else if StrLess(ys[0]["name"], x["name"]) {
      InsertKeepsOrder(x, ys[1..], n);
      InsertPast(x, ys, n);
    } else {
      InsertFront(x, ys, n);
    }
  }

  lemma InsertFront(x: Row, ys: seq<Row>, n: string)
    requires "name" in x && Named(ys) && ys != [] && !StrLess(ys[0]["name"], x["name"])
    ensures RowsNamed(Insert(x, ys), n) == NamedPart(x, n) + RowsNamed(ys, n)
  {
    var r := Insert(x, ys);
    assert r == [x] + ys;
    assert r[0] == x && r[1..] == ys;
    RowsNamedCons(r, n);
  }

  lemma InsertPast(x: Row, ys: seq<Row>, n: string)
    requires "name" in x && Named(ys) && ys != [] && StrLess(ys[0]["name"], x["name"])
    requires RowsNamed(Insert(x, ys[1..]), n) == NamedPart(x, n) + RowsNamed(ys[1..], n)
    ensures RowsNamed(Insert(x, ys), n) == NamedPart(x, n) + RowsNamed(ys, n)
  {
    var r := Insert(x, ys);
    var rest := Insert(x, ys[1..]);
    assert r == [ys[0]] + rest;
    assert r[0] == ys[0] && r[1..] == rest;
    RowsNamedCons(r, n);
    RowsNamedCons(ys, n);
    var tail := RowsNamed(ys[1..], n);
    if x["name"] == n {
      assert ys[0]["name"] != n by { StrLessIrreflexive(n); }
      assert NamedPart(ys[0], n) == [];
      assert RowsNamed(r, n) == [x] + tail;
      assert RowsNamed(ys, n) == tail;
    } else {
      assert NamedPart(x, n) == [];
      assert RowsNamed(rest, n) == tail;
    }
  }

  /**
   * The result is sorted by name and holds exactly the rows of the input; the
   * sort is stable: the rows of each name keep their input order.
   */
  lemma {:induction false} SortByNameSpec(rows: seq<Row>)
    requires Named(rows)
    ensures SortedByName(SortByName(rows))
    ensures forall n :: RowsNamed(SortByName(rows), n) == RowsNamed(rows, n)
    decreases |rows|
  {
    if rows != [] {
      SortByNameSpec(rows[1..]);
      InsertSorted(rows[0], SortByName(rows[1..]));
      forall n ensures RowsNamed(SortByName(rows), n) == RowsNamed(rows, n) {
        InsertKeepsOrder(rows[0], SortByName(rows[1..]), n);
      }
    }
  }

  /** `chain(rows, converted own rows)`: the rows handed to the sort. */
  function Chain(own: seq<Row>, rows: seq<Row>, netloc: string -> string): (all: seq<Row>)
    requires OwnRowsReadable(own) && Named(rows)
    ensures Named(all) && |all| == |rows| + |KeptRows(own)|
  {
    var converted := ConvertAll(KeptRows(own), netloc);
    var all := rows + converted;
    assert Named(all) by {
      forall i | 0 <= i < |all| ensures "name" in all[i] {
        if i >= |rows| { assert all[i] == converted[i - |rows|]; }
      }
    }
    all
  }

  /** The merged rows: the dataportals.org rows and the converted kept own rows, sorted by name. */
  function Merge(own: seq<Row>, rows: seq<Row>, netloc: string -> string): seq<Row>
    requires OwnRowsReadable(own) && Named(rows)
  {
    SortByName(Chain(own, rows, netloc))
  }

  /**
   * The merge holds every dataportals.org row and one converted row per own
   * portal with a usable URL, sorted by name; rows of equal name keep the
   * order of the chain, the dataportals.org rows first.
   */
  lemma MergeSpec(own: seq<Row>, rows: seq<Row>, netloc: string -> string)
    requires OwnRowsReadable(own) && Named(rows)
    ensures multiset(Merge(own, rows, netloc)) == multiset(rows) + multiset(ConvertAll(KeptRows(own), netloc))
    ensures |Merge(own, rows, netloc)| == |rows| + |KeptRows(own)|
    ensures Named(Merge(own, rows, netloc)) && SortedByName(Merge(own, rows, netloc))
    ensures forall n :: RowsNamed(Merge(own, rows, netloc), n) == RowsNamed(Chain(own, rows, netloc), n)
  {
    var all := Chain(own, rows, netloc);
    SortByNameSpec(all);
    assert |multiset(SortByName(all))| == |multiset(all)|;
  }
}
