/** The uniform response envelope: snake_case to camelCase key renaming,
    one-level camelisation of response payloads, and the pagination block
    (app/utils/responses.py). */
module Responses {
  import opened Common

  /** A JSON value; an object is an insertion-ordered list of entries (a Python dict). */
  datatype Json =
    | JNull
    | JBool(b: bool)
    | JInt(n: int)
    | JStr(s: string)
    | JList(items: seq<Json>)
    | JObject(entries: Dict)

  type Dict = seq<(string, Json)>

  /** An optional string column as JSON: its text, or null. */
  function OptText(o: Option<string>): Json {
    if o.Some? then JStr(o.value) else JNull
  }

  // ---------------------------------------------------------------------------
  // Dictionaries
  // ---------------------------------------------------------------------------

  predicate HasKey(d: Dict, k: string) {
    exists i :: 0 <= i < |d| && d[i].0 == k
  }

  predicate DistinctKeys(d: Dict) {
    forall i, j :: 0 <= i < j < |d| ==> d[i].0 != d[j].0
  }

  lemma HasKeyCons(x: (string, Json), d: Dict, k: string)
    ensures HasKey([x] + d, k) <==> x.0 == k || HasKey(d, k)
  {
    if HasKey(d, k) {
      var i :| 0 <= i < |d| && d[i].0 == k;
      assert ([x] + d)[i + 1].0 == k;
    }
    if HasKey([x] + d, k) && x.0 != k {
      var i :| 0 <= i < |[x] + d| && ([x] + d)[i].0 == k;
      assert ([x] + d)[0] == x;
      assert d[i - 1].0 == k;
    }
  }

  /** `d.get(k)`. */
  function Get(d: Dict, k: string): (r: Option<Json>)
    ensures r.Some? <==> HasKey(d, k)
  {
    if d == [] then None
    else if d[0].0 == k then Some(d[0].1)
    else
      HasKeyCons(d[0], d[1..], k);
      assert [d[0]] + d[1..] == d;
      Get(d[1..], k)
  }

  lemma GetCons(x: (string, Json), d: Dict, k: string)
    ensures Get([x] + d, k) == if x.0 == k then Some(x.1) else Get(d, k)
  {
    assert ([x] + d)[1..] == d;
  }

  /** `d[k] = v`: an existing key keeps its position and takes the new value,
      a new key goes to the end. */
  function Put(d: Dict, k: string, v: Json): (r: Dict)
    ensures |r| == if HasKey(d, k) then |d| else |d| + 1
  {
    if d == [] then [(k, v)]
    else if d[0].0 == k then [(k, v)] + d[1..]
    else
      HasKeyCons(d[0], d[1..], k);
      assert [d[0]] + d[1..] == d;
      [d[0]] + Put(d[1..], k, v)
  }

  /** After `d[k] = v`, `k` holds `v` and every other key holds what it held. */
  lemma {:induction false} PutGet(d: Dict, k: string, v: Json, k': string)
    ensures Get(Put(d, k, v), k') == if k' == k then Some(v) else Get(d, k')
  {
    if d != [] && d[0].0 != k {
      PutGet(d[1..], k, v, k');
      GetCons(d[0], Put(d[1..], k, v), k');
      GetCons(d[0], d[1..], k');
      assert [d[0]] + d[1..] == d;
    } else if d != [] {
      GetCons((k, v), d[1..], k');
      GetCons(d[0], d[1..], k');
      assert [d[0]] + d[1..] == d;
    }
  }

  /** Assigning a key keeps the keys of a dictionary distinct. */
  lemma {:induction false} PutDistinct(d: Dict, k: string, v: Json)
    requires DistinctKeys(d)
    ensures DistinctKeys(Put(d, k, v))
  {
    if d != [] {
      var r := Put(d, k, v);
      if d[0].0 == k {
        assert forall i :: 0 <= i < |r| ==> r[i].0 == d[i].0;
      } else {
        var x, rest := d[0], Put(d[1..], k, v);
        PutDistinct(d[1..], k, v);
        assert !HasKey(d[1..], x.0);
        PutGet(d[1..], k, v, x.0);
        assert Get(rest, x.0) == Get(d[1..], x.0);
        assert r == [x] + rest;
        forall j | 0 < j < |r| ensures r[j].0 != r[0].0 {
          assert r[j] == rest[j - 1];
        }
      }
    }
  }

  /** Assigning a key the dictionary does not hold appends it. */
  lemma {:induction false} PutFresh(d: Dict, k: string, v: Json)
    requires !HasKey(d, k)
    ensures Put(d, k, v) == d + [(k, v)]
  {
    if d != [] {
      HasKeyCons(d[0], d[1..], k);
      assert [d[0]] + d[1..] == d;
      PutFresh(d[1..], k, v);
    }
  }

  // ---------------------------------------------------------------------------
  // snake_to_camel
  // ---------------------------------------------------------------------------

  /** Python's `s.split(sep)` for a one-character separator. */
  function Split(s: string, sep: char): (parts: seq<string>)
    ensures |parts| >= 1
    ensures forall i :: 0 <= i < |parts| ==> sep !in parts[i]
  {
    if s == [] then [""]
    else
      var rest := Split(s[1..], sep);
      if s[0] == sep then [""] + rest
      else [[s[0]] + rest[0]] + rest[1..]
  }

  /** Python's `sep.join(parts)`. */
  function Join(parts: seq<string>, sep: char): string
    requires |parts| >= 1
  {
    if |parts| == 1 then parts[0] else parts[0] + [sep] + Join(parts[1..], sep)
  }

  /** Joining the pieces of a split gives the original string back. */
  lemma {:induction false} SplitJoin(s: string, sep: char)
    ensures Join(Split(s, sep), sep) == s
  {
    if s != [] {
      SplitJoin(s[1..], sep);
      var rest := Split(s[1..], sep);
      if s[0] != sep && |rest| > 1 {
        assert ([s[0]] + rest[0]) + [sep] + Join(rest[1..], sep)
            == [s[0]] + (rest[0] + [sep] + Join(rest[1..], sep));
      }
    }
  }

  /** Splitting a segment free of the separator, followed by the separator, peels off that segment. */
  lemma {:induction false} SplitSegment(w: string, sep: char, t: string)
    requires sep !in w
    ensures Split(w + [sep] + t, sep) == [w] + Split(t, sep)
  {
    if w != [] {
      SplitSegment(w[1..], sep, t);
      assert w[0] in w;
      assert (w + [sep] + t)[0] == w[0];
      assert (w + [sep] + t)[1..] == w[1..] + [sep] + t;
      assert [w[0]] + w[1..] == w;
    } else {
      assert w + [sep] + t == [sep] + t;
    }
  }

  /** A string without the separator splits into itself alone. */
  lemma {:induction false} SplitWhole(w: string, sep: char)
    requires sep !in w
    ensures Split(w, sep) == [w]
  {
    if w != [] {
      assert w[0] in w;
      SplitWhole(w[1..], sep);
      assert [w[0]] + w[1..] == w;
    }
  }

  /** Splitting a join of separator-free pieces recovers the pieces. */
  lemma {:induction false} JoinSplit(parts: seq<string>, sep: char)
    requires |parts| >= 1
    requires forall i :: 0 <= i < |parts| ==> sep !in parts[i]
    ensures Split(Join(parts, sep), sep) == parts
  {
    if |parts| == 1 {
      SplitWhole(parts[0], sep);
    } else {
      JoinSplit(parts[1..], sep);
      SplitSegment(parts[0], sep, Join(parts[1..], sep));
      assert [parts[0]] + parts[1..] == parts;
    }
  }

  function Upper(c: char): char {
    if 'a' <= c <= 'z' then (c as int - 32) as char else c
  }

  function Lower(c: char): char {
    if 'A' <= c <= 'Z' then (c as int + 32) as char else c
  }

  function LowerAll(w: string): (r: string)
    ensures |r| == |w|
    ensures forall i :: 0 <= i < |w| ==> r[i] == Lower(w[i])
  {
    if w == [] then [] else [Lower(w[0])] + LowerAll(w[1..])
  }

  /** Python's `str.capitalize` on ASCII text: first letter upper, the rest lower. */
  function Capitalize(w: string): (r: string)
    ensures |r| == |w|
    ensures |w| > 0 ==> r[0] == Upper(w[0])
    ensures forall i :: 1 <= i < |w| ==> r[i] == Lower(w[i])
    ensures '_' !in w ==> '_' !in r
  {
    if w == [] then [] else [Upper(w[0])] + LowerAll(w[1..])
  }

  /** `"".join(word.capitalize() for word in words)`. */
  function CapitalizeAll(words: seq<string>): (r: string)
    ensures (forall i :: 0 <= i < |words| ==> '_' !in words[i]) ==> '_' !in r
  {
    if words == [] then "" else Capitalize(words[0]) + CapitalizeAll(words[1..])
  }

  /** `snake_to_camel`: the first `_`-separated part as it is, every later part capitalised. */
  function SnakeToCamel(s: string): string {
    var parts := Split(s, '_');
    parts[0] + CapitalizeAll(parts[1..])
  }

  /** A key built from underscore-free segments keeps its first segment and
      capitalises each later one, with the underscores dropped. */
  lemma SnakeToCamelSegments(parts: seq<string>)
    requires |parts| >= 1
    requires forall i :: 0 <= i < |parts| ==> '_' !in parts[i]
    ensures SnakeToCamel(Join(parts, '_')) == parts[0] + CapitalizeAll(parts[1..])
  {
    JoinSplit(parts, '_');
  }

  /** A key containing no underscore is its own camelCase form. */
  lemma SnakeToCamelFixed(s: string)
    requires '_' !in s
    ensures SnakeToCamel(s) == s
  {
    SplitWhole(s, '_');
  }

  /** A camelCase key never contains an underscore. */
  lemma SnakeToCamelNoUnderscore(s: string)
    ensures '_' !in SnakeToCamel(s)
  {
    var parts := Split(s, '_');
    assert forall i :: 0 <= i < |parts[1..]| ==> '_' !in parts[1..][i];
  }

  /** Renaming twice is renaming once. */
  lemma SnakeToCamelIdempotent(s: string)
    ensures SnakeToCamel(SnakeToCamel(s)) == SnakeToCamel(s)
  {
    SnakeToCamelNoUnderscore(s);
    SnakeToCamelFixed(SnakeToCamel(s));
  }

  lemma CapitalizePage()
    ensures Capitalize("page") == "Page"
  {
    assert "page"[1..] == "age";
    assert LowerAll("age") == "age" by {
      assert "age"[1..] == "ge";
      assert LowerAll("ge") == "ge" by {
        assert "ge"[1..] == "e";
        assert LowerAll("e") == "e" by { assert "e"[1..] == []; }
      }
    }
  }

  lemma SplitPerPage()
    ensures Split("per_page", '_') == ["per", "page"]
  {
    assert '_' !in "per" && '_' !in "page";
    assert "per_page" == "per" + ['_'] + "page";
    SplitSegment("per", '_', "page");
    SplitWhole("page", '_');
  }

  /** `per_page` is delivered as `perPage`. */
  lemma PerPageKey()
    ensures SnakeToCamel("per_page") == "perPage"
  {
    SplitPerPage();
    CapitalizePage();
    assert ["per", "page"][1..] == ["page"];
    assert CapitalizeAll(["page"]) == "Page" by {
      assert ["page"][1..] == [];
    }
    assert "per" + "Page" == "perPage";
  }

  /** The pagination keys come out as the wire format promises. */
  lemma PaginationKeys()
    ensures SnakeToCamel("page") == "page" && SnakeToCamel("total") == "total"
    ensures SnakeToCamel("pages") == "pages"
    ensures SnakeToCamel("per_page") == "perPage"
  {
    assert '_' !in "page" && '_' !in "total" && '_' !in "pages";
    SnakeToCamelFixed("page");
    SnakeToCamelFixed("total");
    SnakeToCamelFixed("pages");
    PerPageKey();
  }

  // ---------------------------------------------------------------------------
  // snake_to_camel_dict and _camelize
  // ---------------------------------------------------------------------------

  /** `{rename(k): v for k, v in d.items()}` for any key renaming: each renamed key is
      assigned in turn, so a later entry overwrites an earlier one renamed alike. */
  function RenameKeys(d: Dict, rename: string -> string): (r: Dict)
    ensures |r| <= |d|
  {
    if d == [] then []
    else
      var init, last := d[..|d| - 1], d[|d| - 1];
      Put(RenameKeys(init, rename), rename(last.0), last.1)
  }

  /** A renamed dictionary has distinct keys. */
  lemma {:induction false} RenameKeysDistinct(d: Dict, rename: string -> string)
    ensures DistinctKeys(RenameKeys(d, rename))
  {
    if d != [] {
      var init, last := d[..|d| - 1], d[|d| - 1];
      RenameKeysDistinct(init, rename);
      PutDistinct(RenameKeys(init, rename), rename(last.0), last.1);
    }
  }

  /** `snake_to_camel_dict`. */
  function SnakeToCamelDict(d: Dict): Dict {
    RenameKeys(d, SnakeToCamel)
  }

  /** The value of the last entry of `d` whose key renames to `k` (later duplicates win). */
  function LastRenamedTo(d: Dict, rename: string -> string, k: string): (r: Option<Json>)
    ensures r.Some? <==> exists i :: 0 <= i < |d| && rename(d[i].0) == k
  {
    if d == [] then None
    else
      var init, last := d[..|d| - 1], d[|d| - 1];
      assert forall i :: 0 <= i < |init| ==> init[i] == d[i];
      if rename(last.0) == k then Some(last.1)
      else LastRenamedTo(init, rename, k)
  }

  /** Each renamed key holds the value of the last entry renamed to it; no other key is present. */
  lemma {:induction false} RenameKeysGet(d: Dict, rename: string -> string, k: string)
    ensures Get(RenameKeys(d, rename), k) == LastRenamedTo(d, rename, k)
  {
    if d != [] {
      var init, last := d[..|d| - 1], d[|d| - 1];
      RenameKeysGet(init, rename, k);
      PutGet(RenameKeys(init, rename), rename(last.0), last.1, k);
    }
  }

  /** Every key of a renamed dictionary is the renaming of some input key. */
  lemma RenamedKeyOrigin(d: Dict, rename: string -> string, i: nat)
    requires i < |RenameKeys(d, rename)|
    ensures exists j :: 0 <= j < |d| && rename(d[j].0) == RenameKeys(d, rename)[i].0
  {
    var r := RenameKeys(d, rename);
    assert HasKey(r, r[i].0);
    RenameKeysGet(d, rename, r[i].0);
  }

  predicate DistinctStrings(names: seq<string>) {
    forall i, j :: 0 <= i < j < |names| ==> names[i] != names[j]
  }

  /** When the keys rename to distinct names, each entry keeps its place under its new name. */
  lemma {:induction false} RenamedInOrder(d: Dict, rename: string -> string, names: seq<string>)
    requires |names| == |d| && DistinctStrings(names)
    requires forall i :: 0 <= i < |d| ==> rename(d[i].0) == names[i]
    ensures |RenameKeys(d, rename)| == |d|
    ensures forall i :: 0 <= i < |d| ==> RenameKeys(d, rename)[i] == (names[i], d[i].1)
  {
    if d != [] {
      var n := |d| - 1;
      var init, last, initNames := d[..n], d[n], names[..n];
      assert forall i :: 0 <= i < n ==> rename(init[i].0) == initNames[i];
      RenamedInOrder(init, rename, initNames);
      var rec := RenameKeys(init, rename);
      forall i | 0 <= i < |rec| ensures rec[i].0 != names[n] {
        assert rec[i].0 == names[i];
      }
      PutFresh(rec, names[n], last.1);
      assert RenameKeys(d, rename) == rec + [(names[n], last.1)];
    }
  }

  /** A dictionary already in camelCase with distinct keys is left as it is. */
  lemma SnakeToCamelDictFixed(d: Dict)
    requires DistinctKeys(d)
    requires forall i :: 0 <= i < |d| ==> '_' !in d[i].0
    ensures SnakeToCamelDict(d) == d
  {
    var names := seq(|d|, i requires 0 <= i < |d| => d[i].0);
    forall i | 0 <= i < |d| ensures SnakeToCamel(d[i].0) == names[i] {
      SnakeToCamelFixed(d[i].0);
    }
    RenamedInOrder(d, SnakeToCamel, names);
    var r := SnakeToCamelDict(d);
    assert forall i :: 0 <= i < |d| ==> r[i] == d[i];
  }

  /** `_camelize`: None stays None, a dict has its keys renamed (values untouched),
      a list has its dict and list elements camelised, anything else is unchanged. */
  function Camelize(j: Json): Json
    decreases j, 1
  {
    match j
    case JNull => JNull
    case JObject(entries) => JObject(SnakeToCamelDict(entries))
    case JList(items) => JList(CamelizeItems(items))
    case _ => j
  }

  function CamelizeItems(items: seq<Json>): (r: seq<Json>)
    ensures |r| == |items|
    ensures forall i :: 0 <= i < |items| && !items[i].JObject? && !items[i].JList? ==> r[i] == items[i]
    decreases items, 0
  {
    if items == [] then []
    else
      var head := if items[0].JObject? || items[0].JList? then Camelize(items[0]) else items[0];
      [head] + CamelizeItems(items[1..])
  }

  /** Every element of a camelised list is the camelised element. */
  lemma {:induction false} CamelizeItemsAt(items: seq<Json>, i: nat)
    requires i < |items|
    ensures CamelizeItems(items)[i] == Camelize(items[i])
  {
    if i > 0 {
      CamelizeItemsAt(items[1..], i - 1);
    }
  }

  /** Camelising a camelised payload changes nothing. */
  lemma {:induction false} CamelizeIdempotent(j: Json)
    ensures Camelize(Camelize(j)) == Camelize(j)
    decreases j, 1
  {
    match j
    case JObject(entries) =>
      var r := SnakeToCamelDict(entries);
      forall i | 0 <= i < |r| ensures '_' !in r[i].0 {
        RenamedKeyOrigin(entries, SnakeToCamel, i);
        var j :| 0 <= j < |entries| && SnakeToCamel(entries[j].0) == r[i].0;
        SnakeToCamelNoUnderscore(entries[j].0);
      }
      RenameKeysDistinct(entries, SnakeToCamel);
      SnakeToCamelDictFixed(r);
    case JList(items) =>
      CamelizeItemsIdempotent(items);
    case _ =>
  }

  lemma {:induction false} CamelizeItemsIdempotent(items: seq<Json>)
    ensures CamelizeItems(CamelizeItems(items)) == CamelizeItems(items)
    decreases items, 0
  {
    var once := CamelizeItems(items);
    forall i | 0 <= i < |items|
      ensures CamelizeItems(once)[i] == once[i]
    {
      CamelizeItemsAt(items, i);
      CamelizeItemsAt(once, i);
      CamelizeIdempotent(items[i]);
    }
  }

  // ---------------------------------------------------------------------------
  // Envelopes
  // ---------------------------------------------------------------------------

  /** `success_response`: the body and the status it is sent with. */
  function SuccessResponse(data: Json, message: string, status: int): (Json, int) {
    (JObject([("success", JBool(true)), ("message", JStr(message)), ("data", Camelize(data))]), status)
  }

  /** `error_response`: the body carries the status as `error` and is sent with it. */
  function ErrorResponse(message: string, status: int, details: Json): (Json, int) {
    (JObject([("success", JBool(false)), ("error", JInt(status)),
              ("message", JStr(message)), ("details", Camelize(details))]), status)
  }

  /** A success envelope says `success: true`, carries the message and the camelised
      payload, holds nothing else, and goes out with the requested status. */
  lemma SuccessEnvelope(data: Json, message: string, status: int)
    ensures var (body, code) := SuccessResponse(data, message, status);
            && code == status && body.JObject?
            && Get(body.entries, "success") == Some(JBool(true))
            && Get(body.entries, "message") == Some(JStr(message))
            && Get(body.entries, "data") == Some(Camelize(data))
            && forall k :: HasKey(body.entries, k) ==> k == "success" || k == "message" || k == "data"
  {
    var e := SuccessResponse(data, message, status).0.entries;
    GetCons(e[0], e[1..], "data");
    GetCons(e[1], e[2..], "data");
    GetCons(e[0], e[1..], "message");
    assert e[1..] == [e[1]] + e[2..];
    assert e == [e[0]] + e[1..];
  }

  /** An error envelope says `success: false`, repeats the status as `error`, carries
      the message and the camelised details, holds nothing else, and goes out with that status. */
  lemma ErrorEnvelope(message: string, status: int, details: Json)
    ensures var (body, code) := ErrorResponse(message, status, details);
            && code == status && body.JObject?
            && Get(body.entries, "success") == Some(JBool(false))
            && Get(body.entries, "error") == Some(JInt(status))
            && Get(body.entries, "message") == Some(JStr(message))
            && Get(body.entries, "details") == Some(Camelize(details))
            && forall k :: HasKey(body.entries, k) ==> k in {"success", "error", "message", "details"}
  {
    var e := ErrorResponse(message, status, details).0.entries;
    assert "message"[0] != "details"[0];
    assert e == [e[0]] + e[1..] && e[1..] == [e[1]] + e[2..] && e[2..] == [e[2]] + e[3..];
    GetCons(e[0], e[1..], "message");
    GetCons(e[1], e[2..], "message");
    GetCons(e[0], e[1..], "details");
    GetCons(e[1], e[2..], "details");
    GetCons(e[2], e[3..], "details");
  }

  /** Python's `a // b`, which rounds toward negative infinity. */
  function FloorDiv(a: int, b: int): int
    requires b != 0
  {
    if b > 0 then a / b else (-a) / (-b)
  }

  /** `(total + per_page - 1) // per_page`. */
  function PageCount(total: int, perPage: int): int
    requires perPage != 0
  {
    FloorDiv(total + perPage - 1, perPage)
  }

  /** For a positive page size the page count is the ceiling of total / per_page. */
  lemma PageCountIsCeiling(total: nat, perPage: int)
    requires perPage > 0
    ensures PageCount(total, perPage) >= 0
    ensures PageCount(total, perPage) * perPage >= total
    ensures total > 0 ==> (PageCount(total, perPage) - 1) * perPage < total
    ensures total == 0 ==> PageCount(total, perPage) == 0
  {
    var pages := PageCount(total, perPage);
    var n := total + perPage - 1;
    assert n == pages * perPage + n % perPage;
  }

  /** `paginated_response`; None stands for the ZeroDivisionError a zero page size raises. */
  function PaginatedResponse(data: Json, page: int, perPage: int, total: int): (r: Option<Json>)
    ensures r.Some? <==> perPage != 0
    ensures r.Some? ==> r.value.JObject?
  {
    if perPage == 0 then None
    else
      var pagination := JObject([("page", JInt(page)), ("per_page", JInt(perPage)),
                                 ("total", JInt(total)), ("pages", JInt(PageCount(total, perPage)))]);
      Some(JObject([("success", JBool(true)), ("data", Camelize(data)), ("pagination", Camelize(pagination))]))
  }

  /** Renaming the pagination block changes only `per_page`, keeping order and values. */
  lemma PaginationBlockRenamed(page: int, perPage: int, total: int, pages: int)
    ensures SnakeToCamelDict([("page", JInt(page)), ("per_page", JInt(perPage)),
                              ("total", JInt(total)), ("pages", JInt(pages))])
         == [("page", JInt(page)), ("perPage", JInt(perPage)),
             ("total", JInt(total)), ("pages", JInt(pages))]
  {
    PaginationKeys();
    PaginationNames();
    RenamedFour("page", "per_page", "total", "pages", "page", "perPage", "total", "pages",
                JInt(page), JInt(perPage), JInt(total), JInt(pages), SnakeToCamel);
  }

  /** Four entries whose keys rename to four distinct names keep their order and values. */
  lemma RenamedFour(k0: string, k1: string, k2: string, k3: string, n0: string, n1: string, n2: string, n3: string,
                    v0: Json, v1: Json, v2: Json, v3: Json, rename: string -> string)
    requires rename(k0) == n0 && rename(k1) == n1 && rename(k2) == n2 && rename(k3) == n3
    requires DistinctStrings([n0, n1, n2, n3])
    ensures RenameKeys([(k0, v0), (k1, v1), (k2, v2), (k3, v3)], rename) == [(n0, v0), (n1, v1), (n2, v2), (n3, v3)]
  {
    assert n0 != n1 && n0 != n2 && n0 != n3 && n1 != n2 && n1 != n3 && n2 != n3 by {
      assert [n0, n1, n2, n3][0] == n0 && [n0, n1, n2, n3][1] == n1;
      assert [n0, n1, n2, n3][2] == n2 && [n0, n1, n2, n3][3] == n3;
    }
    RenameFresh([], rename, (k0, v0), []);
    assert [] + [(k0, v0)] == [(k0, v0)];
    RenameFresh([(k0, v0)], rename, (k1, v1), [(n0, v0)]);
    assert [(k0, v0)] + [(k1, v1)] == [(k0, v0), (k1, v1)];
    RenameFresh([(k0, v0), (k1, v1)], rename, (k2, v2), [(n0, v0), (n1, v1)]);
    assert [(k0, v0), (k1, v1)] + [(k2, v2)] == [(k0, v0), (k1, v1), (k2, v2)];
    RenameFresh([(k0, v0), (k1, v1), (k2, v2)], rename, (k3, v3), [(n0, v0), (n1, v1), (n2, v2)]);
    assert [(k0, v0), (k1, v1), (k2, v2)] + [(k3, v3)] == [(k0, v0), (k1, v1), (k2, v2), (k3, v3)];
  }

  /** Renaming one more entry whose new key is not yet taken appends it. */
  lemma RenameFresh(init: Dict, rename: string -> string, e: (string, Json), prev: Dict)
    requires RenameKeys(init, rename) == prev
    requires forall i :: 0 <= i < |prev| ==> prev[i].0 != rename(e.0)
    ensures RenameKeys(init + [e], rename) == prev + [(rename(e.0), e.1)]
  {
    var d := init + [e];
    assert d[..|d| - 1] == init;
    PutFresh(prev, rename(e.0), e.1);
  }

  lemma PaginationNames()
    ensures DistinctStrings(["page", "perPage", "total", "pages"])
  {
    assert "page"[1] != "perPage"[1] && |"page"| != |"pages"| && "perPage"[0] != "total"[0];
    assert "page"[0] != "total"[0] && "perPage"[1] != "pages"[1] && "total"[0] != "pages"[0];
  }

  /** The pagination block is delivered as `page`, `perPage`, `total`, `pages`, with the
      page count computed from the total and the page size. */
  lemma PaginatedResponseShape(data: Json, page: int, perPage: int, total: int)
    requires perPage != 0
    ensures var body := PaginatedResponse(data, page, perPage, total).value.entries;
            && Get(body, "success") == Some(JBool(true))
            && Get(body, "data") == Some(Camelize(data))
            && Get(body, "pagination") == Some(JObject([("page", JInt(page)), ("perPage", JInt(perPage)),
                                                        ("total", JInt(total)), ("pages", JInt(PageCount(total, perPage)))]))
  {
    PaginationBlockRenamed(page, perPage, total, PageCount(total, perPage));
    var e := PaginatedResponse(data, page, perPage, total).value.entries;
    assert e == [e[0]] + e[1..] && e[1..] == [e[1]] + e[2..] && e[2..] == [e[2]] + [];
    GetCons(e[0], e[1..], "data");
    GetCons(e[0], e[1..], "pagination");
    GetCons(e[1], e[2..], "pagination");
    GetCons(e[2], [], "pagination");
  }
}
