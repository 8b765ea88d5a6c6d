/**
 * The schema.org structured data of `lib/schema.ts`: the `Restaurant` object that
 * `generateRestaurantSchema` assembles from the site configuration and the site URL.
 *
 * The object is built as the source builds it: the fixed fields first, then the
 * coordinates when both are set, the opening hours, the social links (pushed one by one)
 * and the menu links.
 */
module StructuredData {
  import opened Wrappers
  import opened Schemas
  import opened Text
  import Hours

  datatype PostalAddress = PostalAddress(
    kind: string, streetAddress: string, addressLocality: string, addressRegion: string,
    postalCode: string, addressCountry: string)

  datatype GeoCoordinates = GeoCoordinates(kind: string, latitude: real, longitude: real)

  datatype OpeningHoursSpec = OpeningHoursSpec(kind: string, dayOfWeek: string, opens: string, closes: string)

  /** The `Restaurant` object; `kind` is its `@type`. The fields the builder always sets are
      plain values, the two it may leave out (`geo`, `sameAs`) are options. */
  datatype Restaurant = Restaurant(
    context: string,
    kind: string,
    name: string,
    url: string,
    telephone: string,
    email: string,
    address: PostalAddress,
    servesCuisine: seq<string>,
    priceRange: string,
    geo: Option<GeoCoordinates>,
    openingHoursSpecification: seq<OpeningHoursSpec>,
    sameAs: Option<seq<string>>,
    hasMenu: seq<string>)

  /** JavaScript truthiness of a nullable number: neither `null` nor zero. */
  predicate TruthyNumber(x: Option<real>) {
    x.Some? && x.value != 0.0
  }

  /** JavaScript truthiness of a nullable string: neither `null` nor empty. */
  predicate TruthyString(s: Option<string>) {
    s.Some? && s.value != ""
  }

  // ---------------------------------------------------------------------------
  // Opening hours

  /** `daysMap`: each lower-case day key to its display name. */
  function DaysMap(): map<string, string> {
    map["sunday" := "Sunday", "monday" := "Monday", "tuesday" := "Tuesday",
        "wednesday" := "Wednesday", "thursday" := "Thursday", "friday" := "Friday",
        "saturday" := "Saturday"]
  }

  /** `Object.entries(hours)`: the seven days in the order the schema lists them. */
  function HoursEntries(w: WeeklyHours): (r: seq<(string, Schemas.Hours)>)
    ensures |r| == 7
  {
    seq(7, i requires 0 <= i < 7 => (DayNames[i], HoursOn(w, i)))
  }

  function SpecOf(entry: (string, Schemas.Hours)): OpeningHoursSpec
    requires entry.0 in DaysMap()
  {
    OpeningHoursSpec("OpeningHoursSpecification", DaysMap()[entry.0], entry.1.open, entry.1.close)
  }

  /** The `map` over the entries. */
  function OpeningHours(w: WeeklyHours): (r: seq<OpeningHoursSpec>)
    ensures |r| == 7
  {
    var entries := HoursEntries(w);
    seq(7, i requires 0 <= i < 7 => SpecOf(entries[i]))
  }

  /** The display names of the map are the day keys with the first letter capitalised. */
  lemma {:induction false} DaysMapCapitalises(i: nat)
    requires i < 7
    ensures DayNames[i] in DaysMap() && DaysMap()[DayNames[i]] == Hours.FormatDayName(DayNames[i])
  {
    var d := DayNames[i];
    assert Hours.FormatDayName(d) == [UpperChar(d[0])] + d[1..];
    match i
    case 0 => assert d == "sunday";
    case 1 => assert d == "monday";
    case 2 => assert d == "tuesday";
    case 3 => assert d == "wednesday";
    case 4 => assert d == "thursday";
    case 5 => assert d == "friday";
    case 6 => assert d == "saturday";
  }

  /** One specification per day of the week, Sunday first, carrying that day's display name
      and its opening and closing times. */
  lemma {:induction false} OpeningHoursDays(w: WeeklyHours)
    ensures forall i :: 0 <= i < 7 ==>
      OpeningHours(w)[i] == OpeningHoursSpec("OpeningHoursSpecification", Hours.FormatDayName(DayNames[i]),
                                             HoursOn(w, i).open, HoursOn(w, i).close)
  {
    forall i | 0 <= i < 7
      ensures OpeningHours(w)[i] == OpeningHoursSpec("OpeningHoursSpecification", Hours.FormatDayName(DayNames[i]),
                                                     HoursOn(w, i).open, HoursOn(w, i).close)
    {
      DaysMapCapitalises(i);
    }
  }

  /** The hours listed for a day name, the first entry carrying it. */
  function LookupDay(specs: seq<OpeningHoursSpec>, day: string): (r: Option<Schemas.Hours>)
    ensures r.Some? ==> exists i :: 0 <= i < |specs| && specs[i].dayOfWeek == day
  {
    if specs == [] then None
    else if specs[0].dayOfWeek == day then Some(Schemas.Hours(specs[0].opens, specs[0].closes))
    else LookupDay(specs[1..], day)
  }

  lemma {:induction false} LookupDayAt(specs: seq<OpeningHoursSpec>, day: string, i: nat)
    requires i < |specs| && specs[i].dayOfWeek == day
    requires forall j :: 0 <= j < i ==> specs[j].dayOfWeek != day
    ensures LookupDay(specs, day) == Some(Schemas.Hours(specs[i].opens, specs[i].closes))
    decreases i
  {
    if i > 0 {
      assert specs[0].dayOfWeek != day;
      LookupDayAt(specs[1..], day, i - 1);
    }
  }

  lemma {:induction false} DisplayNamesDistinct(i: nat, j: nat)
    requires i < 7 && j < 7 && i != j
    ensures Hours.FormatDayName(DayNames[i]) != Hours.FormatDayName(DayNames[j])
  {
    Hours.DayNamesDistinct(i, j);
    Hours.FormatDayNameReadsBack(DayNames[i]);
    Hours.FormatDayNameReadsBack(DayNames[j]);
  }

  /** Looking a day up by its display name gives back that day's hours: the specification
      loses nothing of the weekly hours. */
  lemma {:induction false} OpeningHoursReadBack(w: WeeklyHours, i: nat)
    requires i < 7
    ensures LookupDay(OpeningHours(w), Hours.FormatDayName(DayNames[i])) == Some(HoursOn(w, i))
  {
    var specs := OpeningHours(w);
    var day := Hours.FormatDayName(DayNames[i]);
    OpeningHoursDays(w);
    forall j | 0 <= j < i ensures specs[j].dayOfWeek != day {
      DisplayNamesDistinct(j, i);
    }
    LookupDayAt(specs, day, i);
  }

  // ---------------------------------------------------------------------------
  // The builder

  /** `generateRestaurantSchema`. */
  method GenerateRestaurantSchema(config: SiteConfig, siteUrl: string) returns (schema: Restaurant)
    ensures schema.context == "https://schema.org" && schema.kind == "Restaurant"
    ensures schema.name == config.businessName && schema.url == siteUrl
    ensures schema.telephone == config.phone && schema.email == config.email
    ensures schema.address == PostalAddress("PostalAddress", config.address.street, config.address.city,
                                            config.address.state, config.address.zip, config.address.country)
    ensures schema.servesCuisine == config.cuisines && schema.priceRange == config.priceRange
    ensures schema.geo.Some? <==> TruthyNumber(config.latitude) && TruthyNumber(config.longitude)
    ensures schema.geo.Some? ==>
      schema.geo.value == GeoCoordinates("GeoCoordinates", config.latitude.value, config.longitude.value)
    ensures schema.openingHoursSpecification == OpeningHours(config.hours)
    ensures schema.sameAs.None? <==> !TruthyString(config.instagramUrl) && !TruthyString(config.facebookUrl)
    ensures schema.sameAs.Some? ==>
      && |schema.sameAs.value| == (if TruthyString(config.instagramUrl) then 1 else 0)
                                  + (if TruthyString(config.facebookUrl) then 1 else 0)
      && (TruthyString(config.instagramUrl) ==> schema.sameAs.value[0] == config.instagramUrl.value)
      && (TruthyString(config.facebookUrl) ==>
            schema.sameAs.value[|schema.sameAs.value| - 1] == config.facebookUrl.value)
    ensures schema.hasMenu == [siteUrl + "/menu", siteUrl + "/drinks"]
  {
    var address := PostalAddress("PostalAddress", config.address.street, config.address.city,
                                 config.address.state, config.address.zip, config.address.country);
    schema := Restaurant("https://schema.org", "Restaurant", config.businessName, siteUrl, config.phone,
                         config.email, address, config.cuisines, config.priceRange, None, [], None, []);

    if TruthyNumber(config.latitude) && TruthyNumber(config.longitude) {
      schema := schema.(geo := Some(GeoCoordinates("GeoCoordinates", config.latitude.value, config.longitude.value)));
    }

    schema := schema.(openingHoursSpecification := OpeningHours(config.hours));

    var sameAs: seq<string> := [];
    if TruthyString(config.instagramUrl) {
      sameAs := sameAs + [config.instagramUrl.value];
    }
    if TruthyString(config.facebookUrl) {
      sameAs := sameAs + [config.facebookUrl.value];
    }
    if |sameAs| > 0 {
      schema := schema.(sameAs := Some(sameAs));
    }

    schema := schema.(hasMenu := [siteUrl + "/menu", siteUrl + "/drinks"]);
  }
}
