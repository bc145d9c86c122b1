/**
 * The "openness" estimator (chrome-extension/opennesAPI.js): for each compass
 * direction around a listing it asks the Overpass API for the map features in a
 * small rectangle on that side and classifies what it finds as open, low-rise
 * or blocked. The network is a script of outcomes, one script per direction:
 * the a-th request of a direction receives the a-th outcome of its script, and
 * a request beyond the end of the script fails as an unreachable host does.
 */
module Openness {
  import opened Wrappers
  import opened JsText

  // ================================================================ map features

  /** An OpenStreetMap element as Overpass returns it; `tags` is absent on
      untagged nodes. A JSON `null` in the list is `NullElement`. */
  datatype Element = Element(tags: Option<map<string, string>>) | NullElement

  /** The JSON body of an Overpass answer; `elements` may be absent. A body
      that is the JSON `null` is `NullData`. */
  datatype Data = Data(elements: Option<seq<Element>>) | NullData

  /** `data.elements || []` (not reached for `NullData`, which throws first). */
  function Elements(d: Data): seq<Element> {
    match d
    case NullData => []
    case Data(els) => els.GetOr([])
  }

  /** `el.tags[key]`, a tag that is not there reading as "" (both are falsy). */
  function Tag(el: Element, key: string): string {
    match el
    case NullElement => ""
    case Element(None) => ""
    case Element(Some(t)) => if key in t then t[key] else ""
  }

  /** A park, a parking lot or a lawn: a feature that keeps the view open. */
  predicate IsOpenFeature(el: Element) {
    el.Element? && el.tags.Some?
    && (Tag(el, "leisure") == "park" || Tag(el, "amenity") == "parking" || Tag(el, "landuse") == "grass")
  }

  predicate IsBuilding(el: Element) {
    el.Element? && el.tags.Some? && Tag(el, "building") != ""
  }

  /** What an open feature is reported as: `leisure || amenity || landuse`. */
  function FeatureReason(el: Element): string {
    Or(Tag(el, "leisure"), Or(Tag(el, "amenity"), Tag(el, "landuse")))
  }

  /** `elements.find(IsOpenFeature)`: the index of the first open feature. */
  function FindOpenFeature(els: seq<Element>): (r: Option<nat>)
    ensures r.Some? ==> r.value < |els| && IsOpenFeature(els[r.value])
    ensures r.Some? ==> forall k :: 0 <= k < r.value ==> !IsOpenFeature(els[k])
    ensures r.None? <==> forall k :: 0 <= k < |els| ==> !IsOpenFeature(els[k])
  {
    if els == [] then None
    else if IsOpenFeature(els[0]) then Some(0)
    else match FindOpenFeature(els[1..])
      case None => None
      case Some(i) => Some(i + 1)
  }

  /** Where `elements.find(...)` stops: at the first element that is an open
      feature, or that is `null`, whose `tags` it cannot read. */
  function FindStop(els: seq<Element>): (r: Option<nat>)
    ensures r.Some? ==> r.value < |els| && (IsOpenFeature(els[r.value]) || els[r.value].NullElement?)
    ensures r.Some? ==> forall k :: 0 <= k < r.value ==> !IsOpenFeature(els[k]) && els[k].Element?
    ensures r.None? <==> forall k :: 0 <= k < |els| ==> !IsOpenFeature(els[k]) && els[k].Element?
  {
    if els == [] then None
    else if IsOpenFeature(els[0]) || els[0].NullElement? then Some(0)
    else match FindStop(els[1..])
      case None => None
      case Some(i) => Some(i + 1)
  }

  /** `elements.filter(IsBuilding)`. */
  function Buildings(els: seq<Element>): (r: seq<Element>)
    ensures forall k :: 0 <= k < |r| ==> IsBuilding(r[k]) && r[k] in els
    ensures forall k :: 0 <= k < |els| && IsBuilding(els[k]) ==> els[k] in r
  {
    if els == [] then []
    else Buildings(els[..|els| - 1]) + (if IsBuilding(els[|els| - 1]) then [els[|els| - 1]] else [])
  }

  /** What follows an optional leading sign. */
  function Unsigned(t: string): (r: string)
    ensures t != [] && IsDigit(t[0]) ==> r == t
  {
    if t != [] && (t[0] == '-' || t[0] == '+') then t[1..] else t
  }

  /** `parseInt(s, 10)`: leading white space, an optional sign, then the longest
      run of digits; no digit at all is NaN, here `None`. */
  function ParseInt(s: string): Option<int> {
    var t := TrimStart(s);
    var d := DigitRun(Unsigned(t));
    if d == [] then None
    else if t[0] == '-' then Some(-(DigitsValue(d) as int))
    else Some(DigitsValue(d))
  }

  /** `parseInt` reads the leading digits and ignores what follows them
      ("3 kat" is 3). */
  lemma ParseIntLeading(space: string, d: string, rest: string)
    requires IsBlank(space) && d != [] && AllDigits(d)
    requires rest == [] || !IsDigit(rest[0])
    ensures ParseInt(space + d + rest) == Some(DigitsValue(d))
  {
    var t := d + rest;
    assert t[0] == d[0];
    assert TrimStart(space + d + rest) == t by {
      assert space + t == space + d + rest;
      TrimStartBlank(space, t);
    }
    assert DigitRun(Unsigned(t)) == d by {
      DigitRunOf(d, rest);
    }
  }

  lemma {:induction false} TrimStartBlank(space: string, t: string)
    requires IsBlank(space) && t != [] && !IsSpace(t[0])
    ensures TrimStart(space + t) == t
  {
    if space != [] {
      assert (space + t)[1..] == space[1..] + t;
      TrimStartBlank(space[1..], t);
    } else {
      assert space + t == t;
    }
  }

  /** `parseInt` reads back the rendering of any integer. */
  lemma ParseIntRoundTrip(n: int)
    ensures ParseInt(IntToString(n)) == Some(n)
  {
    var m: nat := if n < 0 then -n else n;
    var d := NatToString(m);
    NatToStringRoundTrip(m);
    if n < 0 {
      var s := "-" + d;
      assert IntToString(n) == s;
      assert TrimStart(s) == s;
      assert Unsigned(s) == d;
      assert DigitRun(d) == d by {
        DigitRunOf(d, []);
        assert d + [] == d;
      }
    } else {
      assert "" + d + "" == d;
      ParseIntLeading("", d, "");
    }
  }

  /** The storey count a building declares, when `building:levels` is set and
      parses. */
  function Levels(el: Element): Option<int> {
    var v := Tag(el, "building:levels");
    if v == "" then None else ParseInt(v)
  }

  /** The storey counts the buildings declare, in order. */
  function DeclaredLevels(bs: seq<Element>): (r: seq<Option<int>>)
    ensures |r| == |bs|
    ensures forall k :: 0 <= k < |bs| ==> r[k] == Levels(bs[k])
  {
    if bs == [] then [] else DeclaredLevels(bs[..|bs| - 1]) + [Levels(bs[|bs| - 1])]
  }

  /** The `forEach` that raises `maxLevels`, starting from 0, to every larger
      declared storey count: the largest declared count, or 0. */
  function MaxLevels(ls: seq<Option<int>>): (m: int)
    ensures m >= 0
  {
    if ls == [] then 0
    else
      var m := MaxLevels(ls[..|ls| - 1]);
      var l := ls[|ls| - 1];
      if l.Some? && l.value > m then l.value else m
  }

  /** The maximum bounds every declared count and is 0 or one of them. */
  lemma {:induction false} MaxLevelsSpec(ls: seq<Option<int>>)
    ensures forall k :: 0 <= k < |ls| && ls[k].Some? ==> ls[k].value <= MaxLevels(ls)
    ensures MaxLevels(ls) == 0 || exists k :: 0 <= k < |ls| && ls[k] == Some(MaxLevels(ls))
  {
    if ls != [] {
      var init := ls[..|ls| - 1];
      MaxLevelsSpec(init);
      assert forall k :: 0 <= k < |init| ==> ls[k] == init[k];
    }
  }

  // ================================================================ classification

  datatype Status = Open | OpenLowRise | Blocked | Error

  /** The `status` string of each verdict. */
  function StatusName(s: Status): string {
    match s
    case Open => "Open"
    case OpenLowRise => "Open (Low-Rise)"
    case Blocked => "Blocked"
    case Error => "Error"
  }

  /** What is reported for one direction. */
  datatype Zone = Zone(status: Status, reason: string)

  /** `analyzeZoneResults`: nothing there is an empty lot; the first open
      feature decides next; then, with no building, the zone is open; otherwise
      the tallest declared building decides. */
  function ZoneVerdict(d: Data): (z: Zone)
    ensures z.status != Error
    ensures z.status != Open ==> exists k :: 0 <= k < |Elements(d)| && IsBuilding(Elements(d)[k])
  {
    var els := Elements(d);
    assert Buildings(els) != [] ==> Buildings(els)[0] in els;
    if els == [] then Zone(Open, "Empty Lot")
    else match FindOpenFeature(els)
      case Some(i) => Zone(Open, "Contains '" + FeatureReason(els[i]) + "'")
      case None =>
        var bs := Buildings(els);
        if bs == [] then Zone(Open, "No significant structures")
        else
          var m := MaxLevels(DeclaredLevels(bs));
          if m > 2 then Zone(Blocked, "Building (" + IntToString(m) + " floors)")
          else if m > 0 then Zone(OpenLowRise, "Low-rise building (" + IntToString(m) + " floor/s)")
          else Zone(Blocked, "Building (Unknown Height)")
  }

  /** The TypeError a property read on `null` raises. */
  function NullRead(property: string): string {
    "Cannot read properties of null (reading '" + property + "')"
  }

  /** What `analyzeZoneResults` does with a body: it classifies the zone, or
      it throws. */
  datatype Analysis = Classified(zone: Zone) | Threw(message: string)

  /** `analyzeZoneResults` with its throws: a `null` body fails on `elements`,
      and a `null` element that `find` reaches before any open feature fails
      on `tags`; anything else is classified. */
  function Analyze(d: Data): Analysis {
    if d.NullData? then Threw(NullRead("elements"))
    else
      var stop := FindStop(Elements(d));
      if stop.Some? && Elements(d)[stop.value].NullElement? then Threw(NullRead("tags"))
      else Classified(ZoneVerdict(d))
  }

  /** The classification throws exactly for a `null` body, or a `null`
      element with no open feature before it. */
  lemma AnalyzeThrowsIff(d: Data)
    ensures var els := Elements(d);
      Analyze(d).Threw? <==>
        d.NullData? || exists k :: 0 <= k < |els| && els[k].NullElement? && forall j :: 0 <= j < k ==> !IsOpenFeature(els[j])
  {
    var els := Elements(d);
    var stop := FindStop(els);
    if d.Data? && stop.Some? && !els[stop.value].NullElement? {
      forall k | 0 <= k < |els| && els[k].NullElement?
        ensures exists j :: 0 <= j < k && IsOpenFeature(els[j])
      {
        assert stop.value < k;
      }
    }
  }

  /** The classifier as the source runs it: a `find`, a `filter` and a
      `forEach` that raises `maxLevels`. */
  method AnalyzeZoneResults(data: Data) returns (a: Analysis)
    ensures a == Analyze(data)
  {
    if data.NullData? {
      return Threw(NullRead("elements"));
    }
    var els := Elements(data);
    if |els| == 0 {
      return Classified(Zone(Open, "Empty Lot"));
    }
    var found := FindOpen(els);
    if found.Some? {
      if els[found.value].NullElement? {
        return Threw(NullRead("tags"));
      }
      assert FindOpenFeature(els) == found;
      return Classified(Zone(Open, "Contains '" + FeatureReason(els[found.value]) + "'"));
    }
    var buildings := FilterBuildings(els);
    if |buildings| == 0 {
      return Classified(Zone(Open, "No significant structures"));
    }
    var maxLevels := HighestLevel(buildings);
    if maxLevels > 2 {
      a := Classified(Zone(Blocked, "Building (" + IntToString(maxLevels) + " floors)"));
    } else if maxLevels > 0 {
      a := Classified(Zone(OpenLowRise, "Low-rise building (" + IntToString(maxLevels) + " floor/s)"));
    } else {
      a := Classified(Zone(Blocked, "Building (Unknown Height)"));
    }
  }

  /** `elements.find(...)`: the index where it stops, at the first open
      feature or at a `null` element. */
  method FindOpen(els: seq<Element>) returns (found: Option<nat>)
    ensures found == FindStop(els)
  {
    var i := 0;
    while i < |els| && !IsOpenFeature(els[i]) && !els[i].NullElement?
      invariant 0 <= i <= |els|
      invariant forall k :: 0 <= k < i ==> !IsOpenFeature(els[k]) && els[k].Element?
    {
      i := i + 1;
    }
    found := if i < |els| then Some(i) else None;
  }

  /** `elements.filter(el => el.tags && el.tags.building)`. */
  method FilterBuildings(els: seq<Element>) returns (buildings: seq<Element>)
    ensures buildings == Buildings(els)
  {
    buildings := [];
    for k := 0 to |els|
      invariant buildings == Buildings(els[..k])
    {
      assert els[..k + 1][..k] == els[..k];
      if IsBuilding(els[k]) {
        buildings := buildings + [els[k]];
      }
    }
    assert els[..|els|] == els;
  }

  /** The `forEach` over the buildings that raises `maxLevels` from 0. */
  method HighestLevel(buildings: seq<Element>) returns (maxLevels: int)
    ensures maxLevels == MaxLevels(DeclaredLevels(buildings))
  {
    maxLevels := 0;
    for k := 0 to |buildings|
      invariant maxLevels == MaxLevels(DeclaredLevels(buildings[..k]))
    {
      HighestLevelStep(buildings, k);
      var levels := DeclaredLevel(buildings[k]);
      if levels.Some? && levels.value > maxLevels {
        maxLevels := levels.value;
      }
    }
    assert buildings[..|buildings|] == buildings;
  }

  /** One more building raises the maximum to its declared count when larger. */
  lemma HighestLevelStep(bs: seq<Element>, k: nat)
    requires k < |bs|
    ensures var m := MaxLevels(DeclaredLevels(bs[..k])); var l := Levels(bs[k]);
      MaxLevels(DeclaredLevels(bs[..k + 1])) == if l.Some? && l.value > m then l.value else m
  {
    assert bs[..k + 1][..k] == bs[..k];
    MaxLevelsStep(DeclaredLevels(bs[..k]), Levels(bs[k]));
  }

  /** `parseInt(building.tags['building:levels'], 10)` when the tag is set;
      `NaN` is `None`. */
  method DeclaredLevel(building: Element) returns (levels: Option<int>)
    ensures levels == Levels(building)
  {
    levels := None;
    var v := Tag(building, "building:levels");
    if v != "" {
      levels := ParseInt(v);
    }
  }

  /** One step of the `forEach`: a larger declared count replaces the maximum. */
  lemma MaxLevelsStep(ls: seq<Option<int>>, l: Option<int>)
    ensures MaxLevels(ls + [l]) == if l.Some? && l.value > MaxLevels(ls) then l.value else MaxLevels(ls)
  {
    assert (ls + [l])[..|ls|] == ls;
  }

  /** Some building of the zone declares more than `n` storeys. */
  predicate TallerThan(els: seq<Element>, n: int) {
    exists k :: 0 <= k < |els| && IsBuilding(els[k]) && Levels(els[k]).Some? && Levels(els[k]).value > n
  }

  /** Where the `j`-th building stands among the elements. */
  lemma BuildingSource(els: seq<Element>, j: nat) returns (k: nat)
    requires j < |Buildings(els)|
    ensures k < |els| && els[k] == Buildings(els)[j] && IsBuilding(els[k])
  {
    var bs := Buildings(els);
    assert bs[j] in els;
    k :| 0 <= k < |els| && els[k] == bs[j];
  }

  /** Where a building among the elements stands among the buildings. */
  lemma BuildingTarget(els: seq<Element>, k: nat) returns (j: nat)
    requires k < |els| && IsBuilding(els[k])
    ensures j < |Buildings(els)| && Buildings(els)[j] == els[k]
  {
    var bs := Buildings(els);
    assert els[k] in bs;
    j :| 0 <= j < |bs| && bs[j] == els[k];
  }

  /** The tallest declared building of a zone exceeds `n` (for `n >= 0`) exactly
      when some building of the zone declares more than `n` storeys. */
  lemma MaxLevelsAbove(els: seq<Element>, n: int)
    requires n >= 0
    ensures MaxLevels(DeclaredLevels(Buildings(els))) > n <==> TallerThan(els, n)
  {
    var ls := DeclaredLevels(Buildings(els));
    var m := MaxLevels(ls);
    MaxLevelsSpec(ls);
    if m > n {
      var j :| 0 <= j < |ls| && ls[j] == Some(m);
      var k := BuildingSource(els, j);
      assert Levels(els[k]) == ls[j];
    }
    if TallerThan(els, n) {
      var k :| 0 <= k < |els| && IsBuilding(els[k]) && Levels(els[k]).Some? && Levels(els[k]).value > n;
      var j := BuildingTarget(els, k);
      assert ls[j] == Levels(els[k]);
    }
  }

  /** A zone is reported plainly open exactly when it is empty, holds an open
      feature, or holds no building; the reason then names which. */
  lemma ZoneOpenIff(d: Data)
    ensures var els := Elements(d);
      ZoneVerdict(d).status == Open <==>
        els == [] || FindOpenFeature(els).Some? || forall k :: 0 <= k < |els| ==> !IsBuilding(els[k])
  {
    var els := Elements(d);
    if els != [] && FindOpenFeature(els).None? {
      var bs := Buildings(els);
      if bs != [] {
        var k := BuildingSource(els, 0);
        assert ZoneVerdict(d).status != Open;
      } else {
        assert ZoneVerdict(d).status == Open;
        assert forall k :: 0 <= k < |els| ==> !IsBuilding(els[k]);
      }
    }
  }

  /** The reasons of an open zone: an empty lot, or the first open feature
      by its name. */
  lemma ZoneOpenReason(d: Data)
    ensures Elements(d) == [] ==> ZoneVerdict(d) == Zone(Open, "Empty Lot")
    ensures forall i :: FindOpenFeature(Elements(d)) == Some(i) ==>
      ZoneVerdict(d) == Zone(Open, "Contains '" + FeatureReason(Elements(d)[i]) + "'")
  {
  }

  /** With buildings and no open feature, the verdict follows the tallest
      declared building: above two storeys is blocked, one or two is low-rise,
      and no usable storey count is blocked of unknown height. */
  lemma ZoneByHeight(d: Data, k: nat)
    requires k < |Elements(d)| && IsBuilding(Elements(d)[k])
    requires FindOpenFeature(Elements(d)).None?
    ensures var els := Elements(d); var m := MaxLevels(DeclaredLevels(Buildings(els)));
      && (TallerThan(els, 2) ==> ZoneVerdict(d) == Zone(Blocked, "Building (" + IntToString(m) + " floors)"))
      && (TallerThan(els, 0) && !TallerThan(els, 2) ==>
            ZoneVerdict(d) == Zone(OpenLowRise, "Low-rise building (" + IntToString(m) + " floor/s)") && 1 <= m <= 2)
      && (!TallerThan(els, 0) ==> ZoneVerdict(d) == Zone(Blocked, "Building (Unknown Height)"))
  {
    var els := Elements(d);
    assert els[k] in Buildings(els);
    MaxLevelsAbove(els, 2);
    MaxLevelsAbove(els, 0);
  }

  // ================================================================ querying Overpass

  /** The public Overpass endpoints, in the order they are tried. */
  const Endpoints: seq<string> := [
    "https://overpass-api.de/api/interpreter",
    "https://overpass.kumi.systems/api/interpreter",
    "https://overpass.openstreetmap.ru/api/interpreter",
    "https://overpass.nchc.org.tw/api/interpreter",
    "https://overpass.openstreetmap.fr/api/interpreter"
  ]

  const AttemptsPerEndpoint: nat := 3
  const MaxTotalAttempts: nat := 15

  /** The body of an answer: JSON that parses, or the message `response.json()`
      rejects with. */
  datatype Body = Json(data: Data) | BadJson(message: string)

  datatype Reply = Reply(status: int, statusText: string, body: Body)

  /** What a `fetch` yields: a reply, or the message of the error it threw. */
  datatype Outcome = Answer(reply: Reply) | NetErr(message: string)

  function Nth(net: seq<Outcome>, i: nat): Outcome {
    if i < |net| then net[i] else NetErr("Failed to fetch")
  }

  /** An ok reply whose body parses: the only outcome that ends the retries. */
  predicate Succeeds(o: Outcome) {
    o.Answer? && 200 <= o.reply.status <= 299 && o.reply.body.Json?
  }

  /** The message `lastError` carries after a failed attempt. */
  function ErrorMessage(o: Outcome): string
    requires !Succeeds(o)
  {
    match o
    case NetErr(m) => m
    case Answer(r) =>
      if !(200 <= r.status <= 299) then "Overpass API error: " + IntToString(r.status) + " " + r.statusText
      else r.body.message
  }

  /** The message thrown once every attempt has failed. */
  function FinalMessage(lastError: string): (r: string)
    ensures r != ""
  {
    if lastError != "" then lastError else "Overpass API request failed"
  }

  function Pow2(k: nat): (r: nat)
    ensures r >= 1
  {
    if k == 0 then 1 else 2 * Pow2(k - 1)
  }

  /** The back-off before jitter after a failed attempt `a`:
      `1000 * 2 ** floor(a / ENDPOINTS.length)`. */
  function BaseDelay(a: nat): nat {
    1000 * Pow2(a / |Endpoints|)
  }

  lemma {:induction false} Pow2Monotone(i: nat, j: nat)
    requires i <= j
    ensures Pow2(i) <= Pow2(j)
  {
    if i < j {
      Pow2Monotone(i, j - 1);
    }
  }

  /** The back-off never shrinks from one attempt to the next. */
  lemma BaseDelayMonotone(a: nat, b: nat)
    requires a <= b
    ensures BaseDelay(a) <= BaseDelay(b)
  {
    Pow2Monotone(a / 5, b / 5);
  }

  /** One request as it went out: the endpoint, whether it was a GET with
      `?data=` rather than a form POST, and the base back-off taken after it
      when it failed. */
  datatype Try = Try(endpoint: string, useGet: bool, backoff: Option<nat>)

  /** Attempt `a` as the schedule plans it, with the back-off it takes when
      its outcome is `o`. */
  function Planned(a: nat, o: Outcome): Try
    requires a < MaxTotalAttempts
  {
    Try(Endpoints[a / AttemptsPerEndpoint], a % AttemptsPerEndpoint == 1,
        if Succeeds(o) then None else Some(BaseDelay(a)))
  }

  /** The first attempt, from `a` on and among the fifteen, whose outcome
      succeeds; `MaxTotalAttempts` when none does. */
  function FirstSuccess(net: seq<Outcome>, a: nat): (i: nat)
    requires a <= MaxTotalAttempts
    ensures a <= i <= MaxTotalAttempts
    ensures i < MaxTotalAttempts ==> Succeeds(Nth(net, i))
    ensures forall j :: a <= j < i ==> !Succeeds(Nth(net, j))
    decreases MaxTotalAttempts - a
  {
    if a == MaxTotalAttempts || Succeeds(Nth(net, a)) then a else FirstSuccess(net, a + 1)
  }

  datatype QueryResult = Fetched(data: Data) | Failed(message: string)

  /** What `queryOverpass` resolves or rejects with: the body of the first
      successful attempt, or the last error once all fifteen have failed. */
  function OverpassResult(net: seq<Outcome>): (r: QueryResult)
    ensures r.Fetched? <==> exists a :: 0 <= a < MaxTotalAttempts && Succeeds(Nth(net, a))
    ensures r.Failed? ==> r.message == FinalMessage(ErrorMessage(Nth(net, MaxTotalAttempts - 1)))
  {
    var i := FirstSuccess(net, 0);
    if i < MaxTotalAttempts then Fetched(Nth(net, i).reply.body.data)
    else Failed(FinalMessage(ErrorMessage(Nth(net, MaxTotalAttempts - 1))))
  }

  /** The first `n` attempts as planned, outcome by outcome. */
  function PlannedUpTo(net: seq<Outcome>, n: nat): seq<Try>
    requires n <= MaxTotalAttempts
  {
    if n == 0 then [] else PlannedUpTo(net, n - 1) + [Planned(n - 1, Nth(net, n - 1))]
  }

  /** The attempts `queryOverpass` makes: up to and including the first
      success, or all fifteen. */
  function AttemptsMade(net: seq<Outcome>): seq<Try> {
    var i := FirstSuccess(net, 0);
    PlannedUpTo(net, if i < MaxTotalAttempts then i + 1 else MaxTotalAttempts)
  }

  lemma {:induction false} PlannedUpToSpec(net: seq<Outcome>, n: nat)
    requires n <= MaxTotalAttempts
    ensures |PlannedUpTo(net, n)| == n
    ensures forall a :: 0 <= a < n ==> PlannedUpTo(net, n)[a] == Planned(a, Nth(net, a))
  {
    if n > 0 {
      var before := PlannedUpTo(net, n - 1);
      PlannedUpToSpec(net, n - 1);
      var t := Planned(n - 1, Nth(net, n - 1));
      assert PlannedUpTo(net, n) == before + [t];
      assert forall a :: 0 <= a < n - 1 ==> (before + [t])[a] == before[a];
    }
  }

  /** The attempts stop at the first success and are all fifteen when each
      fails; each is made on its planned endpoint, verb and back-off, and the
      result is fetched exactly when the last one succeeded. */
  lemma AttemptsMadeSpec(net: seq<Outcome>)
    ensures var tries := AttemptsMade(net);
      && 1 <= |tries| <= MaxTotalAttempts
      && (OverpassResult(net).Fetched? <==> Succeeds(Nth(net, |tries| - 1)))
      && (OverpassResult(net).Failed? ==> |tries| == MaxTotalAttempts)
      && (forall a :: 0 <= a < |tries| - 1 ==> !Succeeds(Nth(net, a)))
      && (forall a :: 0 <= a < |tries| ==> tries[a] == Planned(a, Nth(net, a)))
  {
    var i := FirstSuccess(net, 0);
    PlannedUpToSpec(net, if i < MaxTotalAttempts then i + 1 else MaxTotalAttempts);
  }

  /** `queryOverpass`: up to three attempts on each endpoint in turn, the
      second of each three as a GET; every failure, whatever its kind, costs
      one attempt and a back-off that doubles every five attempts. */
  method QueryOverpass(net: seq<Outcome>) returns (r: QueryResult, tries: seq<Try>)
    ensures r == OverpassResult(net)
    ensures tries == AttemptsMade(net)
  {
    var attempt := 0;
    var endpointIndex := 0;
    var lastError: Option<string> := None;
    tries := [];
    while attempt < MaxTotalAttempts
      invariant 0 <= attempt <= MaxTotalAttempts
      invariant endpointIndex == attempt / AttemptsPerEndpoint
      invariant FirstSuccess(net, 0) == FirstSuccess(net, attempt)
      invariant attempt > 0 ==> lastError == Some(ErrorMessage(Nth(net, attempt - 1)))
      invariant tries == PlannedUpTo(net, attempt)
    {
      assert endpointIndex % |Endpoints| == attempt / AttemptsPerEndpoint by {
        EndpointStep(attempt);
      }
      var endpoint := Endpoints[endpointIndex % |Endpoints|];
      var useGet := attempt % AttemptsPerEndpoint == 1;
      var o := Nth(net, attempt);
      if Succeeds(o) {
        assert FirstSuccess(net, attempt) == attempt;
        assert Try(endpoint, useGet, None) == Planned(attempt, o);
        tries := tries + [Try(endpoint, useGet, None)];
        return Fetched(o.reply.body.data), tries;
      }
      assert FirstSuccess(net, attempt) == FirstSuccess(net, attempt + 1);
      lastError := Some(ErrorMessage(o));
      var backoff := 1000 * Pow2(attempt / |Endpoints|);
      assert Try(endpoint, useGet, Some(backoff)) == Planned(attempt, o);
      tries := tries + [Try(endpoint, useGet, Some(backoff))];
      if (attempt + 1) % AttemptsPerEndpoint == 0 {
        endpointIndex := endpointIndex + 1;
      }
      EndpointStep(attempt);
      attempt := attempt + 1;
    }
    r := Failed(FinalMessage(if lastError.Some? then lastError.value else ""));
  }

  /** The endpoint index stays below the number of endpoints and moves on
      after every third attempt. */
  lemma EndpointStep(a: nat)
    requires a < MaxTotalAttempts
    ensures a / AttemptsPerEndpoint < |Endpoints|
    ensures (a / AttemptsPerEndpoint) % |Endpoints| == a / AttemptsPerEndpoint
    ensures (a + 1) / AttemptsPerEndpoint == a / AttemptsPerEndpoint + (if (a + 1) % AttemptsPerEndpoint == 0 then 1 else 0)
  {
  }

  /** A non-ok reply that is neither 429 nor 5xx is retried like any other
      failure: the rejection it raises is caught by the same handler. */
  lemma ClientErrorRetried(net: seq<Outcome>, status: int, text: string, body: Body)
    requires |net| >= 2 && net[0] == Answer(Reply(status, text, body))
    requires status < 200 || 299 < status
    requires Succeeds(net[1])
    ensures OverpassResult(net) == Fetched(net[1].reply.body.data)
  {
    assert FirstSuccess(net, 0) == 1;
  }

  // ================================================================ the four sides

  /** The directions `calculateOpenness` knows a search rectangle for. */
  const Compass: seq<string> := ["North", "East", "South", "West"]

  /** The error a direction without a search rectangle raises. */
  const UndefinedCorner: string := "Cannot read properties of undefined (reading 'lat')"

  /** `selectedDirections` when it is a non-empty array, all four otherwise
      (`None` is a value that is not an array). */
  function Directions(selected: Option<seq<string>>): seq<string> {
    if selected.Some? && selected.value != [] then selected.value else Compass
  }

  /** The script of the `k`-th direction queried. */
  function NetOf(nets: seq<seq<Outcome>>, k: nat): seq<Outcome> {
    if k < |nets| then nets[k] else []
  }

  /** The entry for one direction: its classification, or an Error carrying
      whatever interrupted it. */
  function DirectionVerdict(direction: string, net: seq<Outcome>): (z: Zone)
    ensures z.status == Error <==>
      || direction !in Compass
      || OverpassResult(net).Failed?
      || (OverpassResult(net).Fetched? && Analyze(OverpassResult(net).data).Threw?)
  {
    if direction !in Compass then Zone(Error, UndefinedCorner)
    else match OverpassResult(net)
      case Fetched(data) =>
        (match Analyze(data)
         case Classified(z) => z
         case Threw(m) => Zone(Error, m))
      case Failed(m) => Zone(Error, m)
  }

  /** The `results` object after handling `dirs` in order; a repeated direction
      keeps its last entry. */
  function OpennessResults(dirs: seq<string>, nets: seq<seq<Outcome>>): (r: map<string, Zone>)
    ensures r.Keys == set d | d in dirs
  {
    if dirs == [] then map[]
    else
      var k := |dirs| - 1;
      OpennessResults(dirs[..k], nets)[dirs[k] := DirectionVerdict(dirs[k], NetOf(nets, k))]
  }

  /** `calculateOpenness`: one entry per requested direction, each computed
      on its own, a failure becoming that direction's Error entry. */
  method CalculateOpenness(selected: Option<seq<string>>, nets: seq<seq<Outcome>>) returns (results: map<string, Zone>)
    ensures results == OpennessResults(Directions(selected), nets)
    ensures results.Keys == set d | d in Directions(selected)
  {
    var dirs := Directions(selected);
    results := map[];
    for k := 0 to |dirs|
      invariant results == OpennessResults(dirs[..k], nets)
    {
      var direction := dirs[k];
      var zone := AnalyzeDirection(direction, NetOf(nets, k));
      OpennessResultsStep(dirs, nets, k);
      results := results[direction := zone];
    }
    assert dirs[..|dirs|] == dirs;
  }

  /** One more direction adds its own entry to the results. */
  lemma OpennessResultsStep(dirs: seq<string>, nets: seq<seq<Outcome>>, k: nat)
    requires k < |dirs|
    ensures OpennessResults(dirs[..k + 1], nets)
         == OpennessResults(dirs[..k], nets)[dirs[k] := DirectionVerdict(dirs[k], NetOf(nets, k))]
  {
    assert dirs[..k + 1][..k] == dirs[..k];
  }

  /** The body of the loop over directions: the rectangle's query and its
      classification, or the error that interrupted them. */
  method AnalyzeDirection(direction: string, net: seq<Outcome>) returns (zone: Zone)
    ensures zone == DirectionVerdict(direction, net)
  {
    if direction !in Compass {
      zone := Zone(Error, UndefinedCorner);
    } else {
      var q, _ := QueryOverpass(net);
      match q
      case Fetched(data) =>
        var a := AnalyzeZoneResults(data);
        zone := if a.Classified? then a.zone else Zone(Error, a.message);
      case Failed(m) =>
        zone := Zone(Error, m);
    }
  }

  /** Each direction's entry depends on its own queries only: the entry of a
      direction is its verdict on the script of its last occurrence, so an
      Error there leaves the other entries as they would otherwise be. */
  lemma {:induction false} OpennessEntry(dirs: seq<string>, nets: seq<seq<Outcome>>, k: nat)
    requires k < |dirs| && dirs[k] !in dirs[k + 1..]
    ensures OpennessResults(dirs, nets)[dirs[k]] == DirectionVerdict(dirs[k], NetOf(nets, k))
  {
    var last := |dirs| - 1;
    if k < last {
      var pre := dirs[..last];
      assert dirs[k + 1..] == pre[k + 1..] + [dirs[last]];
      assert pre[k] == dirs[k];
      OpennessEntry(pre, nets, k);
    }
  }

  /** A direction with no search rectangle is reported as that error, whatever
      its script holds. */
  lemma UnknownDirection(dirs: seq<string>, nets: seq<seq<Outcome>>, k: nat)
    requires k < |dirs| && dirs[k] !in dirs[k + 1..] && dirs[k] !in Compass
    ensures OpennessResults(dirs, nets)[dirs[k]] == Zone(Error, UndefinedCorner)
  {
    OpennessEntry(dirs, nets, k);
  }

  /** A direction whose fifteen attempts all fail is reported as an Error
      carrying the last failure's message. */
  lemma FailedDirection(dirs: seq<string>, nets: seq<seq<Outcome>>, k: nat)
    requires k < |dirs| && dirs[k] !in dirs[k + 1..] && dirs[k] in Compass
    requires forall a :: 0 <= a < MaxTotalAttempts ==> !Succeeds(Nth(NetOf(nets, k), a))
    ensures OpennessResults(dirs, nets)[dirs[k]]
      == Zone(Error, FinalMessage(ErrorMessage(Nth(NetOf(nets, k), MaxTotalAttempts - 1))))
  {
    OpennessEntry(dirs, nets, k);
  }

  /** Without a non-empty selection the four compass directions are reported. */
  lemma DefaultDirections(selected: Option<seq<string>>, nets: seq<seq<Outcome>>)
    requires selected.None? || selected.value == []
    ensures OpennessResults(Directions(selected), nets).Keys == {"North", "East", "South", "West"}
  {
    assert Directions(selected) == Compass;
    assert (set d | d in Compass) == {"North", "East", "South", "West"} by {
      assert Compass == ["North"] + ["East"] + ["South"] + ["West"];
    }
  }
}
