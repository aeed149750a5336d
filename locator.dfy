/** Finding the closed-question blocks of an evaluation sheet. Every question,
    closed or free-text, opens with a header row; a free-text question is
    recognised by a marker row somewhere below its header, and its header is
    the nearest one above that marker. */
module Locator {
  import opened Sheets

  const HeaderPrefix: string := "Résumé pour Q"
  const MarkerPrefix: string := "Identifiant (ID)"

  predicate IsHeaderRow(sheet: Sheet, x: int) {
    0 <= x < |sheet| && LabelStartsWith(sheet[x].caption, HeaderPrefix)
  }

  predicate IsMarkerRow(sheet: Sheet, x: int) {
    0 <= x < |sheet| && LabelStartsWith(sheet[x].caption, MarkerPrefix)
  }

  predicate Increasing(xs: seq<nat>) {
    forall j, k :: 0 <= j < k < |xs| ==> xs[j] < xs[k]
  }

  /** The indices, from `lo` on, of the rows whose label starts with `prefix`. */
  function RowsFrom(sheet: Sheet, prefix: string, lo: nat): (r: seq<nat>)
    ensures forall x: int :: x in r <==> lo <= x < |sheet| && LabelStartsWith(sheet[x].caption, prefix)
    ensures forall k :: 0 <= k < |r| ==> lo <= r[k]
    ensures Increasing(r)
    decreases |sheet| - lo
  {
    if lo >= |sheet| then []
    else
      var rest := RowsFrom(sheet, prefix, lo + 1);
      if LabelStartsWith(sheet[lo].caption, prefix) then [lo] + rest else rest
  }

  /** The boolean-mask selection of rows by their column-0 prefix. */
  function RowsStartingWith(sheet: Sheet, prefix: string): (r: seq<nat>)
    ensures forall x: int :: x in r <==> 0 <= x < |sheet| && LabelStartsWith(sheet[x].caption, prefix)
    ensures Increasing(r)
  {
    RowsFrom(sheet, prefix, 0)
  }

  /** `max([x for x in xs if x < i])`, with None where that list is empty. */
  function MaxBelow(xs: seq<nat>, i: int): (m: Option)
    ensures m.None? <==> forall k :: 0 <= k < |xs| ==> xs[k] >= i
    ensures m.Some? ==> m.value in xs && m.value < i
    ensures m.Some? ==> forall k :: 0 <= k < |xs| && xs[k] < i ==> xs[k] <= m.value
  {
    if xs == [] then None
    else
      var m := MaxBelow(xs[1..], i);
      if xs[0] >= i then m
      else if m.Some? && m.value > xs[0] then m
      else Some(xs[0])
  }

  datatype Option = None | Some(value: nat)

  /** For each marker, in order, the header that the list comprehension of
      `max` calls picks; the first marker with no header above fails. */
  function NearestHeaders(headers: seq<nat>, markers: seq<nat>): (r: Result<seq<nat>>)
    ensures r.Ok? <==> forall k :: 0 <= k < |markers| ==> MaxBelow(headers, markers[k]).Some?
    ensures r.Ok? ==> |r.value| == |markers|
    ensures r.Ok? ==> forall k :: 0 <= k < |markers| ==> MaxBelow(headers, markers[k]) == Some(r.value[k])
    ensures r.Err? ==> exists k :: 0 <= k < |markers| && MaxBelow(headers, markers[k]).None?
                         && r.error == OrphanMarker(markers[k])
                         && forall j :: 0 <= j < k ==> MaxBelow(headers, markers[j]).Some?
  {
    if markers == [] then Ok([])
    else
      match MaxBelow(headers, markers[0])
      case None => Err(OrphanMarker(markers[0]))
      case Some(h) =>
        match NearestHeaders(headers, markers[1..])
        case Err(e) =>
          NearestErrStep(headers, markers);
          Err(e)
        case Ok(rest) =>
          NearestOkStep(headers, markers, h, rest);
          Ok([h] + rest)
  }

  /** A marker after the first that has no header above it is a marker of
      the tail that has none. */
  lemma NearestErrStep(headers: seq<nat>, markers: seq<nat>)
    requires markers != [] && MaxBelow(headers, markers[0]).Some?
    ensures forall k :: 0 <= k < |markers[1..]| ==> markers[1..][k] == markers[k + 1]
    ensures (forall k :: 0 <= k < |markers| ==> MaxBelow(headers, markers[k]).Some?) <==>
            (forall k :: 0 <= k < |markers[1..]| ==> MaxBelow(headers, markers[1..][k]).Some?)
  {
    var tail := markers[1..];
    if forall k :: 0 <= k < |tail| ==> MaxBelow(headers, tail[k]).Some? {
      forall k | 0 <= k < |markers| ensures MaxBelow(headers, markers[k]).Some? {
        if k > 0 {
          assert markers[k] == tail[k - 1];
        }
      }
    }
  }

  /** The nearest headers of the first marker and the tail, put together. */
  lemma NearestOkStep(headers: seq<nat>, markers: seq<nat>, h: nat, rest: seq<nat>)
    requires markers != [] && MaxBelow(headers, markers[0]) == Some(h)
    requires |rest| == |markers| - 1
    requires forall k :: 0 <= k < |markers[1..]| ==> MaxBelow(headers, markers[1..][k]) == Some(rest[k])
    ensures forall k :: 0 <= k < |markers| ==> MaxBelow(headers, markers[k]) == Some(([h] + rest)[k])
  {
    forall k | 0 <= k < |markers| ensures MaxBelow(headers, markers[k]) == Some(([h] + rest)[k]) {
      if k > 0 {
        assert markers[k] == markers[1..][k - 1];
      }
    }
  }

  /** `[x for x in headers if x not in excluded]`. */
  function Survivors(headers: seq<nat>, excluded: seq<nat>): (r: seq<nat>)
    ensures forall x: int :: x in r <==> x in headers && x !in excluded
    ensures forall k :: 0 <= k < |r| ==> r[k] in headers
    ensures Increasing(headers) ==> Increasing(r)
  {
    if headers == [] then []
    else
      var rest := Survivors(headers[1..], excluded);
      SurvivorsStep(headers, excluded, rest);
      if headers[0] in excluded then rest else [headers[0]] + rest
  }

  /** One step of `Survivors`: the first header is kept or dropped in front of
      the survivors of the others. */
  lemma SurvivorsStep(headers: seq<nat>, excluded: seq<nat>, rest: seq<nat>)
    requires headers != []
    requires forall x: int :: x in rest <==> x in headers[1..] && x !in excluded
    requires forall k :: 0 <= k < |rest| ==> rest[k] in headers[1..]
    requires Increasing(headers[1..]) ==> Increasing(rest)
    ensures var r := if headers[0] in excluded then rest else [headers[0]] + rest;
            && (forall x: int :: x in r <==> x in headers && x !in excluded)
            && (forall k :: 0 <= k < |r| ==> r[k] in headers)
            && (Increasing(headers) ==> Increasing(r))
  {
    var tail := headers[1..];
    assert headers == [headers[0]] + tail;
    assert forall x: int :: x in headers <==> x == headers[0] || x in tail;
    if Increasing(headers) {
      assert Increasing(tail) by {
        forall j, k | 0 <= j < k < |tail| ensures tail[j] < tail[k] {
          assert tail[j] == headers[j + 1] && tail[k] == headers[k + 1];
        }
      }
      forall k | 0 <= k < |rest| ensures headers[0] < rest[k] {
        assert rest[k] in tail;
        var j :| 0 <= j < |tail| && tail[j] == rest[k];
        assert headers[j + 1] == rest[k];
      }
    }
  }

  /** Lines 22-25 of the script: the header rows of the closed questions, in
      row order. */
  function Locate(sheet: Sheet): (r: Result<seq<nat>>)
    ensures r.Ok? ==> Increasing(r.value)
    ensures r.Ok? ==> forall k :: 0 <= k < |r.value| ==> IsHeaderRow(sheet, r.value[k])
  {
    var headers := RowsStartingWith(sheet, HeaderPrefix);
    match NearestHeaders(headers, RowsStartingWith(sheet, MarkerPrefix))
    case Err(e) => Err(e)
    case Ok(excluded) => Ok(Survivors(headers, excluded))
  }

  // ----- The same result, stated without lists -----

  /** Row `x` is the nearest question header strictly above row `m`. */
  ghost predicate NearestHeaderAbove(sheet: Sheet, x: int, m: int) {
    IsHeaderRow(sheet, x) && x < m && forall y :: x < y < m ==> !IsHeaderRow(sheet, y)
  }

  /** A marker row with no question header anywhere above it. */
  ghost predicate Orphan(sheet: Sheet, m: int) {
    IsMarkerRow(sheet, m) && forall y :: 0 <= y < m ==> !IsHeaderRow(sheet, y)
  }

  /** A header that opens a free-text question. */
  ghost predicate FreeTextHeader(sheet: Sheet, x: int) {
    exists m :: IsMarkerRow(sheet, m) && NearestHeaderAbove(sheet, x, m)
  }

  /** The `max` the script takes over the header rows below row `m` is the
      nearest header above `m`, and it is missing exactly when no header lies
      above `m`. */
  lemma MaxBelowIsNearest(sheet: Sheet, m: int)
    ensures MaxBelow(RowsStartingWith(sheet, HeaderPrefix), m).None?
            <==> forall y :: 0 <= y < m ==> !IsHeaderRow(sheet, y)
    ensures forall x: nat ::
              MaxBelow(RowsStartingWith(sheet, HeaderPrefix), m) == Some(x) <==> NearestHeaderAbove(sheet, x, m)
  {
    var headers := RowsStartingWith(sheet, HeaderPrefix);
    var h := MaxBelow(headers, m);
    forall y | 0 <= y < m && IsHeaderRow(sheet, y) ensures h.Some? && y <= h.value {
      assert y in headers;
    }
    if h.Some? {
      assert IsHeaderRow(sheet, h.value);
    }
  }

  /** The locator fails exactly when some marker is an orphan. */
  lemma LocateOkIff(sheet: Sheet)
    ensures Locate(sheet).Ok? <==> forall m :: !Orphan(sheet, m)
  {
    var headers := RowsStartingWith(sheet, HeaderPrefix);
    var markers := RowsStartingWith(sheet, MarkerPrefix);
    var r := NearestHeaders(headers, markers);
    if r.Ok? {
      forall m | Orphan(sheet, m) ensures false {
        assert m in markers;
        var k :| 0 <= k < |markers| && markers[k] == m;
        MaxBelowIsNearest(sheet, m);
      }
    } else {
      var k :| 0 <= k < |markers| && MaxBelow(headers, markers[k]).None?;
      assert markers[k] in markers;
      MaxBelowIsNearest(sheet, markers[k]);
      assert Orphan(sheet, markers[k]);
    }
  }

  /** When the locator fails, it names the first orphan marker of the sheet. */
  lemma LocateReportsFirstOrphan(sheet: Sheet)
    ensures Locate(sheet).Err? ==>
              && Locate(sheet).error.OrphanMarker?
              && Orphan(sheet, Locate(sheet).error.marker)
              && forall m :: m < Locate(sheet).error.marker ==> !Orphan(sheet, m)
  {
    var headers := RowsStartingWith(sheet, HeaderPrefix);
    var markers := RowsStartingWith(sheet, MarkerPrefix);
    var r := NearestHeaders(headers, markers);
    if r.Err? {
      var k :| 0 <= k < |markers| && MaxBelow(headers, markers[k]).None?
               && r.error == OrphanMarker(markers[k])
               && forall j :: 0 <= j < k ==> MaxBelow(headers, markers[j]).Some?;
      assert markers[k] in markers;
      MaxBelowIsNearest(sheet, markers[k]);
    }
  }

  /** The headers the `max` comprehension excludes are exactly the headers
      that open a free-text question. */
  lemma ExcludedAreFreeText(sheet: Sheet, ex: seq<nat>)
    requires NearestHeaders(RowsStartingWith(sheet, HeaderPrefix), RowsStartingWith(sheet, MarkerPrefix)) == Ok(ex)
    ensures forall x: int :: x in ex <==> FreeTextHeader(sheet, x)
  {
    var markers := RowsStartingWith(sheet, MarkerPrefix);
    forall x: int | x in ex ensures FreeTextHeader(sheet, x) {
      var k :| 0 <= k < |ex| && ex[k] == x;
      assert markers[k] in markers;
      MaxBelowIsNearest(sheet, markers[k]);
      assert IsMarkerRow(sheet, markers[k]) && NearestHeaderAbove(sheet, x, markers[k]);
    }
    forall x: int | FreeTextHeader(sheet, x) ensures x in ex {
      var m :| IsMarkerRow(sheet, m) && NearestHeaderAbove(sheet, x, m);
      assert m in markers;
      var k :| 0 <= k < |markers| && markers[k] == m;
      MaxBelowIsNearest(sheet, m);
      assert ex[k] == x;
    }
  }

  /** When the locator succeeds, it keeps exactly the question headers that do
      not open a free-text question. */
  lemma LocateKeepsClosedQuestions(sheet: Sheet)
    ensures Locate(sheet).Ok? ==>
              forall x: int :: x in Locate(sheet).value <==> IsHeaderRow(sheet, x) && !FreeTextHeader(sheet, x)
  {
    var headers := RowsStartingWith(sheet, HeaderPrefix);
    var r := NearestHeaders(headers, RowsStartingWith(sheet, MarkerPrefix));
    if r.Ok? {
      ExcludedAreFreeText(sheet, r.value);
    }
  }
}
