/** The pure request arithmetic shared by the listing handlers: page and
    limit defaults, the skip offset, the page count `Math.ceil(total /
    limit)`, the page window the database returns, the `field_dir` sort
    parser, and the `read` and `category` query filters. */
module Query {
  import opened Common
  import opened Text

  const DefaultPage: int := 1
  const DefaultLimit: int := 10

  /** `parseInt(q) || d`, where `None` stands for NaN: NaN and 0 fall back
      to the default, any other number is kept (negative ones included). */
  function OrDefault(parsed: Option<int>, d: int): (r: int)
    requires d != 0
    ensures r != 0
  {
    if parsed.None? || parsed.value == 0 then d else parsed.value
  }

  /** The page and limit of a listing request, and its skip offset. */
  datatype Paging = Paging(page: int, limit: int, skip: int)

  function ReadPaging(page: Option<int>, limit: Option<int>): (p: Paging)
    ensures p.limit != 0
    ensures (page.None? || page.value == 0) ==> p.page == DefaultPage
    ensures (limit.None? || limit.value == 0) ==> p.limit == DefaultLimit
    ensures page.Some? && page.value != 0 ==> p.page == page.value
    ensures limit.Some? && limit.value != 0 ==> p.limit == limit.value
    ensures p.skip == (p.page - 1) * p.limit
  {
    var pg := OrDefault(page, DefaultPage);
    var lim := OrDefault(limit, DefaultLimit);
    Paging(pg, lim, (pg - 1) * lim)
  }

  /** `Math.ceil(total / limit)` on exact rationals, for either sign of the
      limit (a negative limit is kept by `parseInt || 10`). */
  function Pages(total: nat, limit: int): int
    requires limit != 0
  {
    if limit > 0 then (total + limit - 1) / limit else -(total / -limit)
  }

  /** The page count is the ceiling of total / limit: the least integer p
      with total / limit <= p. For a positive limit this is the number of
      pages of `limit` items needed to hold `total` items. */
  lemma PagesIsCeiling(total: nat, limit: int)
    requires limit != 0
    ensures limit > 0 ==> (Pages(total, limit) - 1) * limit < total <= Pages(total, limit) * limit
    ensures limit < 0 ==> Pages(total, limit) * limit <= total < (Pages(total, limit) - 1) * limit
    ensures limit > 0 ==> (Pages(total, limit) == 0 <==> total == 0)
  {
    if limit > 0 {
      CeilingUp(total, limit);
    } else {
      CeilingDown(total, -limit);
    }
  }

  lemma CeilingUp(total: nat, d: int)
    requires d > 0
    ensures var p := (total + d - 1) / d;
      (p - 1) * d < total <= p * d && (p == 0 <==> total == 0)
  {
    var n := total + d - 1;
    var p, rem := n / d, n % d;
    assert n == p * d + rem && 0 <= rem < d;
    assert (p - 1) * d == p * d - d;
    if total == 0 {
      assert n < d;
    } else {
      assert p * d > 0;
    }
  }

  lemma CeilingDown(total: nat, m: int)
    requires m > 0
    ensures var p := -(total / m);
      p * -m <= total < (p - 1) * -m
  {
    var q, rem := total / m, total % m;
    assert total == q * m + rem && 0 <= rem < m;
    assert -q * -m == q * m;
    assert (-q - 1) * -m == q * m + m;
  }

  function Abs(x: int): nat {
    if x < 0 then -x else x
  }

  /** `.skip(skip).limit(limit)` on a result list. The database rejects a
      negative skip (the handler then answers `server_error`); a negative
      limit returns at most its magnitude. The window is the longest run of
      at most |limit| items starting at position `skip`. */
  function Window<T>(items: seq<T>, skip: int, limit: int): (r: Option<seq<T>>)
    requires limit != 0
    ensures r.None? <==> skip < 0
    ensures r.Some? ==> |r.value| <= Abs(limit)
    ensures r.Some? && skip >= |items| ==> r.value == []
    ensures r.Some? && 0 <= skip < |items| ==>
      && skip + |r.value| <= |items|
      && r.value == items[skip..skip + |r.value|]
      && (|r.value| == Abs(limit) || skip + |r.value| == |items|)
  {
    if skip < 0 then None
    else if skip >= |items| then Some([])
    else if |items| - skip <= Abs(limit) then Some(items[skip..])
    else Some(items[skip..skip + Abs(limit)])
  }

  /** A sort request: the field to sort on and its direction. */
  datatype SortSpec = SortSpec(field: string, descending: bool)

  /** Without a sort parameter: newest first. */
  const DefaultSort: SortSpec := SortSpec("createdAt", true)

  /** `const [field, order] = sort.split('_')`, descending iff
      `order === 'desc'`. */
  function ParseSort(sort: Option<string>): SortSpec {
    if !Truthy(sort) then DefaultSort
    else
      var parts := Split(sort.value, '_');
      SortSpec(parts[0], |parts| > 1 && parts[1] == "desc")
  }

  /** The sort key `$natural` asks for the natural (insertion) order, in
      either direction. */
  const NaturalOrder: string := "$natural"

  /** MongoDB's rules for a sort key: `$natural` is accepted; any other key
      is a field path, refused when it is empty, when one of its dotted
      parts is empty, or when a part starts with '$'; the refusal reaches
      the handler's `catch`. */
  predicate SortAccepted(spec: SortSpec) {
    var f := spec.field;
    || f == NaturalOrder
    || (&& f != "" && f[0] != '.' && f[0] != '$' && f[|f| - 1] != '.'
        && forall i :: 0 <= i < |f| - 1 && f[i] == '.' ==> f[i + 1] != '.' && f[i + 1] != '$')
  }

  /** The default sort is accepted, and so is `$natural` in either
      direction (`$natural_desc`); a sort parameter that starts with '_'
      (`_desc`, `_asc`, `_`) names the empty field and is refused. */
  lemma SortRefusals(sort: Option<string>)
    ensures !Truthy(sort) ==> SortAccepted(ParseSort(sort))
    ensures
      (&& Truthy(sort) && StartsWith(sort.value, NaturalOrder)
       && (|sort.value| == |NaturalOrder| || sort.value[|NaturalOrder|] == '_'))
      ==> ParseSort(sort).field == NaturalOrder && SortAccepted(ParseSort(sort))
    ensures Truthy(sort) && sort.value[0] == '_' ==> !SortAccepted(ParseSort(sort))
    ensures Truthy(sort) && '_' !in sort.value ==> ParseSort(sort).field == sort.value
  {
    ParseSortMeaning(sort);
  }

  /** The field is the longest prefix without '_', and the direction is
      descending exactly when that prefix is followed by '_', then "desc",
      then '_' or the end of the string; a missing or empty sort is
      `createdAt` descending. */
  lemma ParseSortMeaning(sort: Option<string>)
    ensures !Truthy(sort) ==> ParseSort(sort) == DefaultSort
    ensures Truthy(sort) ==>
      var s, r := sort.value, ParseSort(sort);
      && '_' !in r.field && StartsWith(s, r.field)
      && (|r.field| == |s| || s[|r.field|] == '_')
      && (r.descending <==>
            && |r.field| < |s|
            && var rest := s[|r.field| + 1..];
               StartsWith(rest, "desc") && (|rest| == 4 || rest[4] == '_'))
  {
    if Truthy(sort) {
      var s := sort.value;
      var parts := Split(s, '_');
      FirstPart(s, '_');
      if |parts| > 1 {
        FirstPartIs(s[|parts[0]| + 1..], '_', "desc");
      }
    }
  }

  /** The `read` filter of the message listing: `true` only for the exact
      string "true", `false` only for "false", no filter otherwise. */
  function ReadFilter(read: Option<string>): (r: Option<bool>)
    ensures r == Some(true) <==> read == Some("true")
    ensures r == Some(false) <==> read == Some("false")
    ensures r == None <==> read != Some("true") && read != Some("false")
  {
    if read == Some("true") then Some(true)
    else if read == Some("false") then Some(false)
    else None
  }

  /** The `category` filter of the video listing: only for a truthy value
      other than "all"; the value is cast through the field's trim setter. */
  function CategoryFilter(category: Option<string>): (r: Option<string>)
    ensures r.None? <==> !Truthy(category) || category.value == "all"
    ensures r.Some? ==> r.value == Trim(category.value)
  {
    if Truthy(category) && category.value != "all" then Some(Trim(category.value)) else None
  }

  /** A listing page and its pagination block. */
  datatype Listing<T> = Listing(items: seq<T>, total: nat, page: int, limit: int, pages: int)
}
