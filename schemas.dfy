/**
 * The content shapes of `lib/schemas.ts`: the typed records the site works with, and the
 * checks a parsed JSON document must pass to become one of them. A decoder returns
 * `None` where the schema rejects the document; keys the schema does not name are
 * dropped, an optional field may be absent but not of the wrong type, and a nullable
 * field must be present (as `null` or a value).
 */
module Schemas {
  import opened Wrappers
  import opened Text

  /** A parsed JSON value. */
  datatype Json = JNull | JBool(b: bool) | JNum(n: real) | JStr(s: string) | JArr(items: seq<Json>) | JObj(fields: map<string, Json>)

  /** The lower-case day names, in `getDay()` order. */
  const DayNames: seq<string> := ["sunday", "monday", "tuesday", "wednesday", "thursday", "friday", "saturday"]
  const DietTags: seq<string> := ["v", "vg", "gf", "df", "n"]

  datatype Address = Address(street: string, city: string, state: string, zip: string, country: string)
  datatype Hours = Hours(open: string, close: string)
  datatype WeeklyHours = WeeklyHours(
    sunday: Hours, monday: Hours, tuesday: Hours, wednesday: Hours,
    thursday: Hours, friday: Hours, saturday: Hours)

  datatype AddOn = AddOn(name: string, price: string)
  datatype MenuItem = MenuItem(
    name: string,
    description: Option<string>,
    price: Option<string>,
    dietary: Option<seq<string>>,
    addOns: Option<seq<AddOn>>,
    spicy: Option<bool>)
  datatype MenuSection = MenuSection(id: string, title: string, description: Option<string>, items: seq<MenuItem>)
  datatype Menu = Menu(lastUpdatedISO: string, showSampleMenu: Option<bool>, sections: seq<MenuSection>)

  datatype RecurringEvent = RecurringEvent(title: string, description: string, dayOfWeek: string, time: string)
  datatype UpcomingEvent = UpcomingEvent(title: string, description: string, date: string, time: string, endDate: Option<string>)
  datatype HappyHour = HappyHour(
    enabled: bool, days: seq<string>, startTime: string, endTime: string,
    description: string, items: Option<seq<AddOn>>)
  datatype PrivateParties = PrivateParties(enabled: bool, description: string, contactEmail: string, contactPhone: string)
  datatype Events = Events(
    recurringEvents: seq<RecurringEvent>,
    upcomingEvents: seq<UpcomingEvent>,
    happyHour: Option<HappyHour>,
    privateParties: PrivateParties)

  /** The parts of the site configuration the structured-data builder reads; a nullable
      field is `None` for `null`. */
  datatype SiteConfig = SiteConfig(
    businessName: string,
    description: string,
    address: Address,
    phone: string,
    email: string,
    hours: WeeklyHours,
    instagramUrl: Option<string>,
    facebookUrl: Option<string>,
    cuisines: seq<string>,
    priceRange: string,
    latitude: Option<real>,
    longitude: Option<real>)

  /** The hours of day `i` of the week, Sunday first. */
  function HoursOn(w: WeeklyHours, i: nat): Hours
    requires i < 7
  {
    match i
    case 0 => w.sunday
    case 1 => w.monday
    case 2 => w.tuesday
    case 3 => w.wednesday
    case 4 => w.thursday
    case 5 => w.friday
    case _ => w.saturday
  }

  // ---------------------------------------------------------------------------
  // Field readers

  function ReqStr(m: map<string, Json>, k: string): Option<string> {
    if k in m && m[k].JStr? then Some(m[k].s) else None
  }

  function ReqBool(m: map<string, Json>, k: string): Option<bool> {
    if k in m && m[k].JBool? then Some(m[k].b) else None
  }

  /** An optional string field: `Some(None)` when absent, `None` when of the wrong type. */
  function OptStr(m: map<string, Json>, k: string): Option<Option<string>> {
    if k !in m then Some(None) else if m[k].JStr? then Some(Some(m[k].s)) else None
  }

  function OptBool(m: map<string, Json>, k: string): Option<Option<bool>> {
    if k !in m then Some(None) else if m[k].JBool? then Some(Some(m[k].b)) else None
  }

  /** Decode every element of an array with `f`; fails when one element fails. */
  function DecodeAll<T>(js: seq<Json>, f: Json -> Option<T>): (r: Option<seq<T>>)
    ensures r.Some? ==> |r.value| == |js| && forall i :: 0 <= i < |js| ==> f(js[i]) == Some(r.value[i])
    ensures r.None? ==> exists i :: 0 <= i < |js| && f(js[i]).None?
  {
    if js == [] then Some([])
    else
      match f(js[0])
      case None => None
      case Some(x) =>
        match DecodeAll(js[1..], f)
        case None => None
        case Some(xs) => Some([x] + xs)
  }

  function EncodeAll<T>(xs: seq<T>, g: T -> Json): (r: seq<Json>)
    ensures |r| == |xs| && forall i :: 0 <= i < |xs| ==> r[i] == g(xs[i])
  {
    if xs == [] then [] else [g(xs[0])] + EncodeAll(xs[1..], g)
  }

  /** Decoding an encoded array gives the elements back when each element round-trips. */
  lemma {:induction false} DecodeAllEncodeAll<T>(xs: seq<T>, g: T -> Json, f: Json -> Option<T>)
    requires forall i :: 0 <= i < |xs| ==> f(g(xs[i])) == Some(xs[i])
    ensures DecodeAll(EncodeAll(xs, g), f) == Some(xs)
  {
    if xs != [] {
      DecodeAllEncodeAll(xs[1..], g, f);
      assert EncodeAll(xs, g)[1..] == EncodeAll(xs[1..], g);
      assert [xs[0]] + xs[1..] == xs;
    }
  }

  function ArrayOf<T>(m: map<string, Json>, k: string, f: Json -> Option<T>): Option<seq<T>> {
    if k in m && m[k].JArr? then DecodeAll(m[k].items, f) else None
  }

  function OptArrayOf<T>(m: map<string, Json>, k: string, f: Json -> Option<T>): Option<Option<seq<T>>> {
    if k !in m then Some(None)
    else if m[k].JArr? then (match DecodeAll(m[k].items, f) case None => None case Some(xs) => Some(Some(xs)))
    else None
  }

  /** A string drawn from a fixed list (`z.enum`). */
  function EnumStr(values: seq<string>): Json -> Option<string> {
    (j: Json) => if j.JStr? && j.s in values then Some(j.s) else None
  }

  // ---------------------------------------------------------------------------
  // Hours

  /** `/^\d{2}:\d{2}$/`: two digits, a colon, two digits, nothing else. */
  predicate IsClock(s: string) {
    |s| == 5 && IsDigit(s[0]) && IsDigit(s[1]) && s[2] == ':' && IsDigit(s[3]) && IsDigit(s[4])
  }

  function DecodeHours(j: Json): (r: Option<Hours>)
    ensures r.Some? ==> IsClock(r.value.open) && IsClock(r.value.close)
  {
    if !j.JObj? then None
    else
      match (ReqStr(j.fields, "open"), ReqStr(j.fields, "close"))
      case (Some(o), Some(c)) => if IsClock(o) && IsClock(c) then Some(Hours(o, c)) else None
      case _ => None
  }

  function EncodeHours(h: Hours): Json {
    JObj(map["open" := JStr(h.open), "close" := JStr(h.close)])
  }

  lemma {:induction false} DecodeEncodeHours(h: Hours)
    requires ValidHours(h)
    ensures DecodeHours(EncodeHours(h)) == Some(h)
  {
  }

  /** The pattern checks the shape only: "99:99" is accepted as an opening time. */
  lemma {:induction false} HoursShapeOnly()
    ensures DecodeHours(EncodeHours(Hours("99:99", "00:00"))) == Some(Hours("99:99", "00:00"))
    ensures DecodeHours(EncodeHours(Hours("9:00", "17:00"))) == None
  {
    assert IsClock("99:99") && IsClock("00:00");
    assert !IsClock("9:00");
  }

  function DecodeWeeklyHours(j: Json): (r: Option<WeeklyHours>)
    ensures r.Some? ==> j.JObj? && forall d :: d in DayNames ==> d in j.fields
  {
    if !j.JObj? then None
    else
      var m := j.fields;
      if forall d :: d in DayNames ==> d in m then
        match (DecodeHours(m["sunday"]), DecodeHours(m["monday"]), DecodeHours(m["tuesday"]),
               DecodeHours(m["wednesday"]), DecodeHours(m["thursday"]), DecodeHours(m["friday"]),
               DecodeHours(m["saturday"]))
        case (Some(su), Some(mo), Some(tu), Some(we), Some(th), Some(fr), Some(sa)) =>
          Some(WeeklyHours(su, mo, tu, we, th, fr, sa))
        case _ => None
      else None
  }

  function EncodeWeeklyHours(w: WeeklyHours): Json {
    JObj(map["sunday" := EncodeHours(w.sunday), "monday" := EncodeHours(w.monday),
             "tuesday" := EncodeHours(w.tuesday), "wednesday" := EncodeHours(w.wednesday),
             "thursday" := EncodeHours(w.thursday), "friday" := EncodeHours(w.friday),
             "saturday" := EncodeHours(w.saturday)])
  }

  predicate ValidHours(h: Hours) {
    IsClock(h.open) && IsClock(h.close)
  }

  predicate ValidWeeklyHours(w: WeeklyHours) {
    && ValidHours(w.sunday) && ValidHours(w.monday) && ValidHours(w.tuesday) && ValidHours(w.wednesday)
    && ValidHours(w.thursday) && ValidHours(w.friday) && ValidHours(w.saturday)
  }

  lemma {:induction false} DecodeEncodeWeeklyHours(w: WeeklyHours)
    requires ValidWeeklyHours(w)
    ensures DecodeWeeklyHours(EncodeWeeklyHours(w)) == Some(w)
  {
    EncodedWeekKeys(w);
    EncodedWeekDays(w);
  }

  lemma {:induction false} EncodedWeekKeys(w: WeeklyHours)
    ensures forall d :: d in DayNames ==> d in EncodeWeeklyHours(w).fields
  {
  }

  lemma {:induction false} EncodedWeekDays(w: WeeklyHours)
    requires ValidWeeklyHours(w)
    ensures var m := EncodeWeeklyHours(w).fields;
      && DecodeHours(m["sunday"]) == Some(w.sunday) && DecodeHours(m["monday"]) == Some(w.monday)
      && DecodeHours(m["tuesday"]) == Some(w.tuesday) && DecodeHours(m["wednesday"]) == Some(w.wednesday)
      && DecodeHours(m["thursday"]) == Some(w.thursday) && DecodeHours(m["friday"]) == Some(w.friday)
      && DecodeHours(m["saturday"]) == Some(w.saturday)
  {
    DecodeEncodeHours(w.sunday);
    DecodeEncodeHours(w.monday);
    DecodeEncodeHours(w.tuesday);
    DecodeEncodeHours(w.wednesday);
    DecodeEncodeHours(w.thursday);
    DecodeEncodeHours(w.friday);
    DecodeEncodeHours(w.saturday);
  }

  /** Every one of the seven days is required: an object without one of them is rejected. */
  lemma {:induction false} WeeklyHoursNeedsEveryDay(m: map<string, Json>, d: string)
    requires d in DayNames && d !in m
    ensures DecodeWeeklyHours(JObj(m)) == None
  {
  }

  // ---------------------------------------------------------------------------
  // Menus

  function DecodeAddOn(j: Json): Option<AddOn> {
    if !j.JObj? then None
    else
      match (ReqStr(j.fields, "name"), ReqStr(j.fields, "price"))
      case (Some(n), Some(p)) => Some(AddOn(n, p))
      case _ => None
  }

  function EncodeAddOn(a: AddOn): Json {
    JObj(map["name" := JStr(a.name), "price" := JStr(a.price)])
  }

  function DecodeMenuItem(j: Json): (r: Option<MenuItem>)
    ensures r.Some? ==> j.JObj? && "name" in j.fields && j.fields["name"] == JStr(r.value.name)
    ensures r.Some? && r.value.dietary.Some? ==> forall t :: t in r.value.dietary.value ==> t in DietTags
  {
    if !j.JObj? then None
    else
      var m := j.fields;
      match (ReqStr(m, "name"), OptStr(m, "description"), OptStr(m, "price"),
             OptArrayOf(m, "dietary", EnumStr(DietTags)), OptArrayOf(m, "addOns", DecodeAddOn),
             OptBool(m, "spicy"))
      case (Some(n), Some(d), Some(p), Some(diet), Some(adds), Some(sp)) =>
        assert diet.Some? ==> forall i :: 0 <= i < |diet.value| ==> diet.value[i] in DietTags;
        Some(MenuItem(n, d, p, diet, adds, sp))
      case _ => None
  }

  /** A JSON object with `key := v` added when `v` is present. */
  function PutOpt(m: map<string, Json>, key: string, v: Option<Json>): map<string, Json> {
    if v.Some? then m[key := v.value] else m
  }

  function OptJStr(s: Option<string>): Option<Json> {
    if s.Some? then Some(JStr(s.value)) else None
  }

  function EncodeMenuItem(item: MenuItem): Json {
    var m0 := map["name" := JStr(item.name)];
    var m1 := PutOpt(m0, "description", OptJStr(item.description));
    var m2 := PutOpt(m1, "price", OptJStr(item.price));
    var m3 := PutOpt(m2, "dietary", if item.dietary.Some? then Some(JArr(EncodeAll(item.dietary.value, s => JStr(s)))) else None);
    var m4 := PutOpt(m3, "addOns", if item.addOns.Some? then Some(JArr(EncodeAll(item.addOns.value, EncodeAddOn))) else None);
    JObj(PutOpt(m4, "spicy", if item.spicy.Some? then Some(JBool(item.spicy.value)) else None))
  }

  predicate ValidMenuItem(item: MenuItem) {
    item.dietary.Some? ==> forall i :: 0 <= i < |item.dietary.value| ==> item.dietary.value[i] in DietTags
  }

  lemma {:induction false} DecodeEncodeMenuItem(item: MenuItem)
    requires ValidMenuItem(item)
    ensures DecodeMenuItem(EncodeMenuItem(item)) == Some(item)
  {
    EncodedScalars(item);
    EncodedDietary(item);
    EncodedAddOns(item);
  }

  lemma {:induction false} EncodedScalars(item: MenuItem)
    ensures ReqStr(EncodeMenuItem(item).fields, "name") == Some(item.name)
    ensures OptStr(EncodeMenuItem(item).fields, "description") == Some(item.description)
    ensures OptStr(EncodeMenuItem(item).fields, "price") == Some(item.price)
    ensures OptBool(EncodeMenuItem(item).fields, "spicy") == Some(item.spicy)
  {
  }

  lemma {:induction false} EncodedDietary(item: MenuItem)
    requires ValidMenuItem(item)
    ensures OptArrayOf(EncodeMenuItem(item).fields, "dietary", EnumStr(DietTags)) == Some(item.dietary)
  {
    var m := EncodeMenuItem(item).fields;
    if item.dietary.Some? {
      DecodeAllEncodeAll(item.dietary.value, s => JStr(s), EnumStr(DietTags));
      assert m["dietary"] == JArr(EncodeAll(item.dietary.value, s => JStr(s)));
    }
  }

  lemma {:induction false} EncodedAddOns(item: MenuItem)
    ensures OptArrayOf(EncodeMenuItem(item).fields, "addOns", DecodeAddOn) == Some(item.addOns)
  {
    var m := EncodeMenuItem(item).fields;
    if item.addOns.Some? {
      forall i | 0 <= i < |item.addOns.value|
        ensures DecodeAddOn(EncodeAddOn(item.addOns.value[i])) == Some(item.addOns.value[i])
      {
      }
      DecodeAllEncodeAll(item.addOns.value, EncodeAddOn, DecodeAddOn);
      assert m["addOns"] == JArr(EncodeAll(item.addOns.value, EncodeAddOn));
    }
  }

  /** A menu item needs a name, and a dietary tag outside v, vg, gf, df, n is rejected. */
  lemma {:induction false} MenuItemRejects(m: map<string, Json>, tags: seq<Json>, i: nat)
    requires i < |tags| && !(tags[i].JStr? && tags[i].s in DietTags)
    ensures DecodeMenuItem(JObj(m - {"name"})) == None
    ensures DecodeMenuItem(JObj(m["dietary" := JArr(tags)])) == None
  {
    var m' := m["dietary" := JArr(tags)];
    assert EnumStr(DietTags)(tags[i]).None?;
    assert DecodeAll(tags, EnumStr(DietTags)).None?;
    assert OptArrayOf(m', "dietary", EnumStr(DietTags)).None?;
  }

  function DecodeMenuSection(j: Json): (r: Option<MenuSection>)
    ensures r.Some? ==> j.JObj? && "id" in j.fields && "title" in j.fields && "items" in j.fields
  {
    if !j.JObj? then None
    else
      var m := j.fields;
      match (ReqStr(m, "id"), ReqStr(m, "title"), OptStr(m, "description"), ArrayOf(m, "items", DecodeMenuItem))
      case (Some(id), Some(t), Some(d), Some(items)) => Some(MenuSection(id, t, d, items))
      case _ => None
  }

  function EncodeMenuSection(s: MenuSection): Json {
    var m := map["id" := JStr(s.id), "title" := JStr(s.title), "items" := JArr(EncodeAll(s.items, EncodeMenuItem))];
    JObj(PutOpt(m, "description", OptJStr(s.description)))
  }

  predicate ValidMenuSection(s: MenuSection) {
    forall i :: 0 <= i < |s.items| ==> ValidMenuItem(s.items[i])
  }

  lemma {:induction false} DecodeEncodeMenuSection(s: MenuSection)
    requires ValidMenuSection(s)
    ensures DecodeMenuSection(EncodeMenuSection(s)) == Some(s)
  {
    ItemsRoundTrip(s.items);
    EncodedSectionFields(s);
  }

  lemma {:induction false} EncodedSectionFields(s: MenuSection)
    ensures var m := EncodeMenuSection(s).fields;
      && ReqStr(m, "id") == Some(s.id) && ReqStr(m, "title") == Some(s.title)
      && OptStr(m, "description") == Some(s.description)
      && "items" in m && m["items"] == JArr(EncodeAll(s.items, EncodeMenuItem))
  {
  }

  lemma {:induction false} ItemsRoundTrip(items: seq<MenuItem>)
    requires forall i :: 0 <= i < |items| ==> ValidMenuItem(items[i])
    ensures DecodeAll(EncodeAll(items, EncodeMenuItem), DecodeMenuItem) == Some(items)
  {
    forall i | 0 <= i < |items| ensures DecodeMenuItem(EncodeMenuItem(items[i])) == Some(items[i]) {
      DecodeEncodeMenuItem(items[i]);
    }
    DecodeAllEncodeAll(items, EncodeMenuItem, DecodeMenuItem);
  }

  function DecodeMenu(j: Json): (r: Option<Menu>)
    ensures r.Some? ==> j.JObj? && "lastUpdatedISO" in j.fields && "sections" in j.fields
  {
    if !j.JObj? then None
    else
      var m := j.fields;
      match (ReqStr(m, "lastUpdatedISO"), OptBool(m, "showSampleMenu"), ArrayOf(m, "sections", DecodeMenuSection))
      case (Some(t), Some(show), Some(sections)) => Some(Menu(t, show, sections))
      case _ => None
  }

  function EncodeMenu(menu: Menu): Json {
    var m := map["lastUpdatedISO" := JStr(menu.lastUpdatedISO), "sections" := JArr(EncodeAll(menu.sections, EncodeMenuSection))];
    JObj(PutOpt(m, "showSampleMenu", if menu.showSampleMenu.Some? then Some(JBool(menu.showSampleMenu.value)) else None))
  }

  lemma {:induction false} DecodeEncodeMenu(menu: Menu)
    requires forall i :: 0 <= i < |menu.sections| ==> ValidMenuSection(menu.sections[i])
    ensures DecodeMenu(EncodeMenu(menu)) == Some(menu)
  {
    SectionsRoundTrip(menu.sections);
    EncodedMenuFields(menu);
  }

  lemma {:induction false} EncodedMenuFields(menu: Menu)
    ensures var m := EncodeMenu(menu).fields;
      && ReqStr(m, "lastUpdatedISO") == Some(menu.lastUpdatedISO)
      && OptBool(m, "showSampleMenu") == Some(menu.showSampleMenu)
      && "sections" in m && m["sections"] == JArr(EncodeAll(menu.sections, EncodeMenuSection))
  {
  }

  lemma {:induction false} SectionsRoundTrip(sections: seq<MenuSection>)
    requires forall i :: 0 <= i < |sections| ==> ValidMenuSection(sections[i])
    ensures DecodeAll(EncodeAll(sections, EncodeMenuSection), DecodeMenuSection) == Some(sections)
  {
    forall i | 0 <= i < |sections| ensures DecodeMenuSection(EncodeMenuSection(sections[i])) == Some(sections[i]) {
      DecodeEncodeMenuSection(sections[i]);
    }
    DecodeAllEncodeAll(sections, EncodeMenuSection, DecodeMenuSection);
  }

  // ---------------------------------------------------------------------------
  // Events

  function DecodeRecurringEvent(j: Json): (r: Option<RecurringEvent>)
    ensures r.Some? ==> r.value.dayOfWeek in DayNames
  {
    if !j.JObj? then None
    else
      var m := j.fields;
      match (ReqStr(m, "title"), ReqStr(m, "description"), ReqStr(m, "dayOfWeek"), ReqStr(m, "time"))
      case (Some(t), Some(d), Some(day), Some(time)) => if day in DayNames then Some(RecurringEvent(t, d, day, time)) else None
      case _ => None
  }

  function DecodeUpcomingEvent(j: Json): Option<UpcomingEvent> {
    if !j.JObj? then None
    else
      var m := j.fields;
      match (ReqStr(m, "title"), ReqStr(m, "description"), ReqStr(m, "date"), ReqStr(m, "time"), OptStr(m, "endDate"))
      case (Some(t), Some(d), Some(date), Some(time), Some(end)) => Some(UpcomingEvent(t, d, date, time, end))
      case _ => None
  }

  function EncodeUpcomingEvent(e: UpcomingEvent): Json {
    var m := map["title" := JStr(e.title), "description" := JStr(e.description),
                 "date" := JStr(e.date), "time" := JStr(e.time)];
    JObj(PutOpt(m, "endDate", OptJStr(e.endDate)))
  }

  /** Every upcoming event round-trips; the end date is left out of the object when absent. */
  lemma {:induction false} DecodeEncodeUpcomingEvent(e: UpcomingEvent)
    ensures DecodeUpcomingEvent(EncodeUpcomingEvent(e)) == Some(e)
    ensures e.endDate.None? <==> "endDate" !in EncodeUpcomingEvent(e).fields
  {
    var m := EncodeUpcomingEvent(e).fields;
    assert ReqStr(m, "title") == Some(e.title);
    assert ReqStr(m, "description") == Some(e.description);
    assert ReqStr(m, "date") == Some(e.date);
    assert ReqStr(m, "time") == Some(e.time);
    assert OptStr(m, "endDate") == Some(e.endDate);
  }

  /** A present `endDate` must be a string; a missing one reads as no end date. */
  lemma {:induction false} UpcomingEndDateOptional(m: map<string, Json>)
    requires DecodeUpcomingEvent(JObj(m)).Some?
    ensures DecodeUpcomingEvent(JObj(m)).value.endDate.None? <==> "endDate" !in m
    ensures DecodeUpcomingEvent(JObj(m["endDate" := JBool(true)])) == None
  {
  }

  /** `HappyHourSchema` is nullable: `Some(None)` for `null`, `None` when rejected. */
  function DecodeHappyHour(j: Json): (r: Option<Option<HappyHour>>)
    ensures j == JNull ==> r == Some(None)
    ensures r.Some? && r.value.Some? ==> forall d :: d in r.value.value.days ==> d in DayNames
  {
    if j.JNull? then Some(None)
    else if !j.JObj? then None
    else
      var m := j.fields;
      match (ReqBool(m, "enabled"), ArrayOf(m, "days", EnumStr(DayNames)), ReqStr(m, "startTime"),
             ReqStr(m, "endTime"), ReqStr(m, "description"), OptArrayOf(m, "items", DecodeAddOn))
      case (Some(e), Some(days), Some(st), Some(et), Some(d), Some(items)) =>
        assert forall i :: 0 <= i < |days| ==> days[i] in DayNames;
        Some(Some(HappyHour(e, days, st, et, d, items)))
      case _ => None
  }

  function DecodePrivateParties(j: Json): Option<PrivateParties> {
    if !j.JObj? then None
    else
      var m := j.fields;
      match (ReqBool(m, "enabled"), ReqStr(m, "description"), ReqStr(m, "contactEmail"), ReqStr(m, "contactPhone"))
      case (Some(e), Some(d), Some(mail), Some(phone)) => Some(PrivateParties(e, d, mail, phone))
      case _ => None
  }

  function EncodePrivateParties(p: PrivateParties): Json {
    JObj(map["enabled" := JBool(p.enabled), "description" := JStr(p.description),
             "contactEmail" := JStr(p.contactEmail), "contactPhone" := JStr(p.contactPhone)])
  }

  /** Every private-parties block round-trips. */
  lemma {:induction false} DecodeEncodePrivateParties(p: PrivateParties)
    ensures DecodePrivateParties(EncodePrivateParties(p)) == Some(p)
  {
    var m := EncodePrivateParties(p).fields;
    assert ReqBool(m, "enabled") == Some(p.enabled);
    assert ReqStr(m, "description") == Some(p.description);
    assert ReqStr(m, "contactEmail") == Some(p.contactEmail);
    assert ReqStr(m, "contactPhone") == Some(p.contactPhone);
  }

  /** `enabled` must be a boolean: the string `"true"` is rejected. */
  lemma {:induction false} PrivatePartiesEnabledBool(p: PrivateParties)
    ensures DecodePrivateParties(JObj(EncodePrivateParties(p).fields["enabled" := JStr("true")])) == None
  {
  }

  function DecodeEvents(j: Json): (r: Option<Events>)
    ensures r.Some? ==> j.JObj? && "recurringEvents" in j.fields && "upcomingEvents" in j.fields
                        && "happyHour" in j.fields && "privateParties" in j.fields
    ensures r.Some? ==> forall e :: e in r.value.recurringEvents ==> e.dayOfWeek in DayNames
  {
    if !j.JObj? then None
    else
      var m := j.fields;
      if "happyHour" !in m then None
      else
        match (ArrayOf(m, "recurringEvents", DecodeRecurringEvent), ArrayOf(m, "upcomingEvents", DecodeUpcomingEvent),
               DecodeHappyHour(m["happyHour"]), if "privateParties" in m then DecodePrivateParties(m["privateParties"]) else None)
        case (Some(rec), Some(up), Some(hh), Some(pp)) =>
          assert forall i :: 0 <= i < |rec| ==> DecodeRecurringEvent(m["recurringEvents"].items[i]) == Some(rec[i]);
          Some(Events(rec, up, hh, pp))
        case _ => None
  }

  /** `happyHour: null` is accepted and read as no happy hour, but the key must be there. */
  lemma {:induction false} HappyHourNullable(m: map<string, Json>)
    requires DecodeEvents(JObj(m[ "happyHour" := JNull])).Some?
    ensures DecodeEvents(JObj(m["happyHour" := JNull])).value.happyHour == None
    ensures DecodeEvents(JObj(m - {"happyHour"})) == None
  {
  }

  /** A recurring event on a day outside the seven lower-case names is rejected. */
  lemma {:induction false} RecurringDayChecked(m: map<string, Json>, day: string)
    requires day !in DayNames
    ensures DecodeRecurringEvent(JObj(m["dayOfWeek" := JStr(day)])) == None
  {
  }

  // ---------------------------------------------------------------------------
  // Events: the accepting direction

  function EncodeRecurringEvent(e: RecurringEvent): Json {
    JObj(map["title" := JStr(e.title), "description" := JStr(e.description),
             "dayOfWeek" := JStr(e.dayOfWeek), "time" := JStr(e.time)])
  }

  /** A recurring event with one of the seven day names is accepted as itself. */
  lemma {:induction false} DecodeEncodeRecurringEvent(e: RecurringEvent)
    requires e.dayOfWeek in DayNames
    ensures DecodeRecurringEvent(EncodeRecurringEvent(e)) == Some(e)
  {
    var m := EncodeRecurringEvent(e).fields;
    assert ReqStr(m, "title") == Some(e.title);
    assert ReqStr(m, "description") == Some(e.description);
    assert ReqStr(m, "dayOfWeek") == Some(e.dayOfWeek);
    assert ReqStr(m, "time") == Some(e.time);
  }

  /** `title`, `description` and `time` are required strings. */
  lemma {:induction false} RecurringEventNeedsFields(e: RecurringEvent, k: string)
    requires k in ["title", "description", "time"]
    ensures DecodeRecurringEvent(JObj(EncodeRecurringEvent(e).fields - {k})) == None
    ensures DecodeRecurringEvent(JObj(EncodeRecurringEvent(e).fields[k := JBool(true)])) == None
  {
  }

  function EncodeHappyHour(h: HappyHour): Json {
    var m := map["enabled" := JBool(h.enabled), "days" := JArr(EncodeAll(h.days, s => JStr(s))),
                 "startTime" := JStr(h.startTime), "endTime" := JStr(h.endTime),
                 "description" := JStr(h.description)];
    JObj(PutOpt(m, "items", if h.items.Some? then Some(JArr(EncodeAll(h.items.value, EncodeAddOn))) else None))
  }

  predicate ValidHappyHour(h: HappyHour) {
    forall i :: 0 <= i < |h.days| ==> h.days[i] in DayNames
  }

  /** A happy hour whose days are day names is accepted as itself (and not as `null`). */
  lemma {:induction false} DecodeEncodeHappyHour(h: HappyHour)
    requires ValidHappyHour(h)
    ensures DecodeHappyHour(EncodeHappyHour(h)) == Some(Some(h))
  {
    EncodedHappyHourDays(h);
    EncodedHappyHourItems(h);
    EncodedHappyHourScalars(h);
  }

  lemma {:induction false} EncodedHappyHourScalars(h: HappyHour)
    ensures var m := EncodeHappyHour(h).fields;
      && ReqBool(m, "enabled") == Some(h.enabled)
      && ReqStr(m, "startTime") == Some(h.startTime) && ReqStr(m, "endTime") == Some(h.endTime)
      && ReqStr(m, "description") == Some(h.description)
  {
  }

  lemma {:induction false} EncodedHappyHourDays(h: HappyHour)
    requires ValidHappyHour(h)
    ensures ArrayOf(EncodeHappyHour(h).fields, "days", EnumStr(DayNames)) == Some(h.days)
  {
    var m := EncodeHappyHour(h).fields;
    DecodeAllEncodeAll(h.days, s => JStr(s), EnumStr(DayNames));
    assert m["days"] == JArr(EncodeAll(h.days, s => JStr(s)));
  }

  lemma {:induction false} EncodedHappyHourItems(h: HappyHour)
    ensures OptArrayOf(EncodeHappyHour(h).fields, "items", DecodeAddOn) == Some(h.items)
  {
    var m := EncodeHappyHour(h).fields;
    if h.items.Some? {
      forall i | 0 <= i < |h.items.value|
        ensures DecodeAddOn(EncodeAddOn(h.items.value[i])) == Some(h.items.value[i])
      {
      }
      DecodeAllEncodeAll(h.items.value, EncodeAddOn, DecodeAddOn);
      assert m["items"] == JArr(EncodeAll(h.items.value, EncodeAddOn));
    }
  }

  /** `enabled`, `days`, `startTime`, `endTime` and `description` are required. */
  lemma {:induction false} HappyHourNeedsFields(h: HappyHour, k: string)
    requires k in ["enabled", "days", "startTime", "endTime", "description"]
    ensures DecodeHappyHour(JObj(EncodeHappyHour(h).fields - {k})) == None
  {
  }

  function EncodeEvents(ev: Events): Json {
    JObj(map["recurringEvents" := JArr(EncodeAll(ev.recurringEvents, EncodeRecurringEvent)),
             "upcomingEvents" := JArr(EncodeAll(ev.upcomingEvents, EncodeUpcomingEvent)),
             "happyHour" := if ev.happyHour.Some? then EncodeHappyHour(ev.happyHour.value) else JNull,
             "privateParties" := EncodePrivateParties(ev.privateParties)])
  }

  predicate ValidEvents(ev: Events) {
    && (forall i :: 0 <= i < |ev.recurringEvents| ==> ev.recurringEvents[i].dayOfWeek in DayNames)
    && (ev.happyHour.Some? ==> ValidHappyHour(ev.happyHour.value))
  }

  /** An events object whose days are day names is accepted as itself. */
  lemma {:induction false} DecodeEncodeEvents(ev: Events)
    requires ValidEvents(ev)
    ensures DecodeEvents(EncodeEvents(ev)) == Some(ev)
  {
    EncodedRecurringEvents(ev);
    EncodedUpcomingEvents(ev);
    EncodedEventsBlocks(ev);
  }

  lemma {:induction false} EncodedRecurringEvents(ev: Events)
    requires ValidEvents(ev)
    ensures ArrayOf(EncodeEvents(ev).fields, "recurringEvents", DecodeRecurringEvent) == Some(ev.recurringEvents)
  {
    forall i | 0 <= i < |ev.recurringEvents|
      ensures DecodeRecurringEvent(EncodeRecurringEvent(ev.recurringEvents[i])) == Some(ev.recurringEvents[i])
    {
      DecodeEncodeRecurringEvent(ev.recurringEvents[i]);
    }
    DecodeAllEncodeAll(ev.recurringEvents, EncodeRecurringEvent, DecodeRecurringEvent);
    assert EncodeEvents(ev).fields["recurringEvents"] == JArr(EncodeAll(ev.recurringEvents, EncodeRecurringEvent));
  }

  lemma {:induction false} EncodedUpcomingEvents(ev: Events)
    ensures ArrayOf(EncodeEvents(ev).fields, "upcomingEvents", DecodeUpcomingEvent) == Some(ev.upcomingEvents)
  {
    forall i | 0 <= i < |ev.upcomingEvents|
      ensures DecodeUpcomingEvent(EncodeUpcomingEvent(ev.upcomingEvents[i])) == Some(ev.upcomingEvents[i])
    {
      DecodeEncodeUpcomingEvent(ev.upcomingEvents[i]);
    }
    DecodeAllEncodeAll(ev.upcomingEvents, EncodeUpcomingEvent, DecodeUpcomingEvent);
    assert EncodeEvents(ev).fields["upcomingEvents"] == JArr(EncodeAll(ev.upcomingEvents, EncodeUpcomingEvent));
  }

  lemma {:induction false} EncodedEventsBlocks(ev: Events)
    requires ValidEvents(ev)
    ensures var m := EncodeEvents(ev).fields;
      && "happyHour" in m && DecodeHappyHour(m["happyHour"]) == Some(ev.happyHour)
      && "privateParties" in m && DecodePrivateParties(m["privateParties"]) == Some(ev.privateParties)
  {
    if ev.happyHour.Some? {
      DecodeEncodeHappyHour(ev.happyHour.value);
    }
    DecodeEncodePrivateParties(ev.privateParties);
  }
}
