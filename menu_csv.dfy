/**
 * The menu spreadsheet reader of `lib/menus/sheetsCsv.ts`: cell parsers, the row to
 * menu-item mapping, the grouping of rows into sections with their two orderings, and
 * the active-row filter with its fallback menu.
 *
 * A spreadsheet row arrives as its cells' text (CSV decoding and the network fetch are
 * not part of this model); a missing cell is the empty string.
 */
module MenuCsv {
  import opened Wrappers
  import opened Text
  import Lists
  import CsvFields
  import Compare
  import opened Schemas

  datatype MenuRow = MenuRow(
    sectionId: string, sectionTitle: string, name: string, description: string, price: string,
    dietary: string, spicy: string, addOns: string, active: string, featured: string, order: string)

  /** What the reader returns: a menu stamped with the time it was read. */
  datatype MenuData = MenuData(lastUpdatedISO: string, sections: seq<MenuSection>)

  // ---------------------------------------------------------------------------
  // Cell parsers

  /** `parseDietary`: the comma-separated tokens, trimmed and lower-cased, that are one of
      the five dietary tags, in their order; none for an empty cell. */
  function ParseDietary(value: string): (r: seq<string>)
    ensures value == "" ==> r == []
    ensures forall i :: 0 <= i < |r| ==> r[i] in DietTags
    ensures value != "" ==> forall t :: t in r <==> t in CsvFields.Tokens(value) && t in DietTags
  {
    if value == "" then []
    else
      NoEmptyTag();
      Lists.Filter(CsvFields.Tokens(value), t => t != "" && t in DietTags)
  }

  lemma {:induction false} NoEmptyTag()
    ensures "" !in DietTags
  {
    assert forall i :: 0 <= i < |DietTags| ==> |DietTags[i]| > 0;
  }

  /** Tags written as `tags.join(', ')` are read back as the same tags. */
  lemma {:induction false} ParseDietaryOfJoin(tags: seq<string>)
    requires forall i :: 0 <= i < |tags| ==> tags[i] in DietTags
    ensures ParseDietary(Join(tags, ", ")) == tags
  {
    if tags != [] {
      forall i | 0 <= i < |tags| ensures CsvFields.CleanToken(tags[i]) && tags[i] != "" {
        assert tags[i] in DietTags;
      }
      assert ", " == "," + " ";
      CsvFields.TokensOfJoin(tags, " ");
      Lists.FilterAll(tags, t => t != "" && t in DietTags);
      assert tags[0] != "";
      if |tags| > 1 {
        assert Join(tags, ", ") == tags[0] + ", " + Join(tags[1..], ", ");
      }
      assert Join(tags, ", ")[0] == tags[0][0];
    }
  }

  // ---------------------------------------------------------------------------
  // Add-ons: the successive matches of /([^(]+)\s*\(\+?\$?([\d.]+)\)/g

  /** The position of the first `(` in `t`, or `|t|`. */
  function ParenIndex(t: string): (q: nat)
    ensures q <= |t|
    ensures forall i :: 0 <= i < q ==> t[i] != '('
    ensures q < |t| ==> t[q] == '('
  {
    if t == [] || t[0] == '(' then 0 else 1 + ParenIndex(t[1..])
  }

  predicate IsPriceChar(c: char) {
    IsDigit(c) || c == '.'
  }

  /** The length of the longest prefix of `u` made of digits and dots. */
  function PriceRun(u: string): (n: nat)
    ensures n <= |u|
    ensures forall i :: 0 <= i < n ==> IsPriceChar(u[i])
    ensures n == |u| || !IsPriceChar(u[n])
  {
    if u != [] && IsPriceChar(u[0]) then 1 + PriceRun(u[1..]) else 0
  }

  /** What follows an opening parenthesis: `\+?\$?([\d.]+)\)`. The amount and the number of
      characters used, or `None` when the pattern does not go on. The pattern has only one
      way to match here: each optional sign can only be the character it names, and the
      greedy amount can only be followed by `)` if it is maximal. */
  function PriceTail(u: string): (r: Option<(string, nat)>)
    ensures r.Some? ==> 0 < |r.value.0| && 0 < r.value.1 <= |u| && u[r.value.1 - 1] == ')'
    ensures r.Some? ==> forall i :: 0 <= i < |r.value.0| ==> IsPriceChar(r.value.0[i])
  {
    var a := if u != [] && u[0] == '+' then 1 else 0;
    var b := if a < |u| && u[a] == '$' then a + 1 else a;
    var tail := u[b..];
    var n := PriceRun(tail);
    if n > 0 && n < |tail| && tail[n] == ')' then
      assert u[b + n] == tail[n];
      Some((tail[..n], b + n + 1))
    else None
  }

  /** One match: the text before the parenthesis and the amount inside it. */
  datatype Match = Match(before: string, amount: string)

  /** `value.matchAll(addOnPattern)`, leftmost match first, the next search starting where
      the previous match ended. A match starting at a character other than `(` takes
      everything up to the next `(` (the greedy `[^(]+`; giving characters back cannot
      help, as `\(` can only match at that parenthesis), so when the pattern fails there,
      it fails at every start up to that parenthesis, and the search resumes after it. */
  function Matches(t: string): (ms: seq<Match>)
    ensures forall i :: 0 <= i < |ms| ==> ms[i].before != [] && '(' !in ms[i].before && ms[i].amount != []
    decreases |t|
  {
    match Step(t)
    case None => []
    case Some((found, used)) => (if found.Some? then [found.value] else []) + Matches(t[used..])
  }

  /** One step of the search from the start of `t`: nothing when no further match can
      begin, else the match found there, if any, and how many characters the search moves
      past (a lone `(`, a parenthesis the price pattern does not follow, or a whole match). */
  function Step(t: string): (r: Option<(Option<Match>, nat)>)
    ensures r.Some? ==> 0 < r.value.1 <= |t|
    ensures r.Some? && r.value.0.Some? ==>
      var m := r.value.0.value;
      m.before != [] && '(' !in m.before && m.amount != []
  {
    var q := ParenIndex(t);
    if q == |t| then None
    else if q == 0 then Some((None, 1))
    else
      var tail := PriceTail(t[q + 1..]);
      if tail.None? then Some((None, q + 1))
      else Some((Some(Match(t[..q], tail.value.0)), q + 1 + tail.value.1))
  }

  /** The name an add-on gets from the text before its parenthesis: trimmed as written,
      or also freed of the separating comma (`fix`). */
  function NameOf(before: string, fix: bool): string {
    if fix then CleanName(before) else Trim(before)
  }

  /** The add-ons of the matches, each price `$` + amount. */
  function AddOnsOf(ms: seq<Match>, fix: bool): (r: seq<AddOn>)
    ensures |r| == |ms|
    ensures forall i :: 0 <= i < |ms| ==> r[i] == AddOn(NameOf(ms[i].before, fix), "$" + ms[i].amount)
  {
    if ms == [] then [] else [AddOn(NameOf(ms[0].before, fix), "$" + ms[0].amount)] + AddOnsOf(ms[1..], fix)
  }

  /** `parseAddOns` as written: absent for a blank cell or when nothing matches; each name
      is the text before the parenthesis, trimmed. */
  function ParseAddOnsAsWritten(value: string): (r: Option<seq<AddOn>>)
    ensures r.None? <==> IsBlank(value) || Matches(value) == []
    ensures r.Some? ==> |r.value| == |Matches(value)| > 0
    ensures r.Some? ==> forall i :: 0 <= i < |r.value| ==> r.value[i].name == Trim(Matches(value)[i].before)
  {
    if IsBlank(value) then None
    else
      var ms := Matches(value);
      if ms == [] then None else Some(AddOnsOf(ms, false))
  }

  predicate IsSeparator(c: char) {
    c == ',' || IsWhitespace(c)
  }

  /** `s` without its leading commas and white space. */
  function DropSeparators(s: string): (r: string)
    ensures r == [] || !IsSeparator(r[0])
    ensures |r| <= |s| && r == s[|s| - |r|..]
  {
    if s != [] && IsSeparator(s[0]) then DropSeparators(s[1..]) else s
  }

  /** The name of an add-on in a list written `Name ($2), Name2 ($3)`: the text before the
      parenthesis without the comma separating it from the previous add-on. */
  function CleanName(before: string): (r: string)
    ensures r == [] || (!IsSeparator(r[0]) && !IsWhitespace(r[|r| - 1]))
  {
    var d := DropSeparators(before);
    if d == [] then []
    else
      assert TrimStart(d) == d;
      TrimEndShape(d);
      var r := TrimEnd(d);
      assert r == [] || r[0] == d[0];
      r
  }

  /** `parseAddOns` with each name freed of the separator before it, as the documented
      format `Name (+$2), Name2 (+$3)` intends. */
  function ParseAddOns(value: string): (r: Option<seq<AddOn>>)
    ensures r.None? <==> IsBlank(value) || Matches(value) == []
    ensures r.Some? ==> |r.value| == |Matches(value)| > 0
    ensures r.Some? ==> forall i :: 0 <= i < |r.value| ==> r.value[i].name == CleanName(Matches(value)[i].before)
  {
    if IsBlank(value) then None
    else
      var ms := Matches(value);
      if ms == [] then None else Some(AddOnsOf(ms, true))
  }

  /** An add-on as a list in the documented format can carry it. */
  predicate WritableAddOn(a: AddOn) {
    && a.name != [] && '(' !in a.name
    && !IsSeparator(a.name[0]) && !IsWhitespace(a.name[|a.name| - 1])
    && |a.price| >= 2 && a.price[0] == '$'
    && forall i :: 1 <= i < |a.price| ==> IsPriceChar(a.price[i])
  }

  /** The amount of a price `$…`. */
  function Amount(price: string): string {
    if price == [] then [] else price[1..]
  }

  function RenderAddOn(a: AddOn): string {
    a.name + " (" + a.price + ")"
  }

  /** Add-ons written `Name ($2), Name2 ($3)`. */
  function RenderAddOns(list: seq<AddOn>): string {
    if |list| == 0 then ""
    else if |list| == 1 then RenderAddOn(list[0])
    else RenderAddOn(list[0]) + ", " + RenderAddOns(list[1..])
  }

  lemma {:induction false} ParenIndexAt(x: string, y: string)
    requires '(' !in x
    ensures ParenIndex(x + "(" + y) == |x|
  {
    if x != [] {
      assert (x + "(" + y)[1..] == x[1..] + "(" + y;
      ParenIndexAt(x[1..], y);
    }
  }

  lemma {:induction false} PriceRunStops(d: string, rest: string)
    requires forall i :: 0 <= i < |d| ==> IsPriceChar(d[i])
    ensures PriceRun(d + ")" + rest) == |d|
  {
    if d != [] {
      assert (d + ")" + rest)[1..] == d[1..] + ")" + rest;
      PriceRunStops(d[1..], rest);
    }
  }

  lemma {:induction false} PriceTailOfPrice(price: string, rest: string)
    requires |price| >= 2 && price[0] == '$'
    requires forall i :: 1 <= i < |price| ==> IsPriceChar(price[i])
    ensures var r := PriceTail(price + ")" + rest);
      r.Some? && r.value.0 == Amount(price) && r.value.1 == |price| + 1
  {
    var u := price + ")" + rest;
    var d := price[1..];
    assert u[0] == '$' && u[0] != '+';
    assert u[1..] == d + ")" + rest;
    PriceRunStops(d, rest);
    assert u[1..][|d|] == ')';
    assert u[1..][..|d|] == d;
  }

  /** One written add-on, after text without a parenthesis, is one match. */
  lemma {:induction false} MatchesRendered(pre: string, a: AddOn, rest: string)
    requires '(' !in pre && WritableAddOn(a)
    ensures Matches(pre + RenderAddOn(a) + rest) == [Match(pre + a.name + " ", Amount(a.price))] + Matches(rest)
  {
    var t := pre + RenderAddOn(a) + rest;
    RenderedStep(pre, a, rest);
    MatchesOfStep(t);
    assert Step(t).value.0.value == Match(pre + a.name + " ", Amount(a.price));
  }

  /** The search step over a written add-on finds it and moves past its `)`. */
  lemma {:induction false} RenderedStep(pre: string, a: AddOn, rest: string)
    requires '(' !in pre && WritableAddOn(a)
    ensures var t := pre + RenderAddOn(a) + rest;
      Step(t).Some? && Step(t).value.0.Some? && t[Step(t).value.1..] == rest
      && Step(t).value.0.value.before == pre + a.name + " " && Step(t).value.0.value.amount == Amount(a.price)
  {
    var t := pre + RenderAddOn(a) + rest;
    var q := |pre + a.name + " "|;
    RenderedPieces(pre, a, rest);
    StepFound(t, q, Amount(a.price), |a.price| + 1);
  }

  /** Where a written add-on's parenthesis and price sit. */
  lemma {:induction false} RenderedPieces(pre: string, a: AddOn, rest: string)
    requires '(' !in pre && WritableAddOn(a)
    ensures var t := pre + RenderAddOn(a) + rest;
      var q := |pre + a.name + " "|;
      0 < ParenIndex(t) == q < |t| && t[..q] == pre + a.name + " "
      && PriceTail(t[q + 1..]).Some? && PriceTail(t[q + 1..]).value.0 == Amount(a.price)
      && PriceTail(t[q + 1..]).value.1 == |a.price| + 1
      && t[q + 1 + |a.price| + 1..] == rest
  {
    var x := pre + a.name + " ";
    var y := a.price + ")" + rest;
    var t := pre + RenderAddOn(a) + rest;
    assert t == x + "(" + y;
    ParenIndexAt(x, y);
    var q := |x|;
    assert t[..q] == x;
    assert t[q + 1..] == y;
    PriceTailOfPrice(a.price, rest);
    assert t[q + 1 + |a.price| + 1..] == rest;
  }

  lemma StepFound(t: string, q: nat, amount: string, used: nat)
    requires 0 < ParenIndex(t) == q < |t|
    requires PriceTail(t[q + 1..]).Some? && PriceTail(t[q + 1..]).value.0 == amount
    requires PriceTail(t[q + 1..]).value.1 == used
    ensures Step(t).Some? && Step(t).value.0.Some? && Step(t).value.1 == q + 1 + used
    ensures Step(t).value.0.value.before == t[..q] && Step(t).value.0.value.amount == amount
  {
  }

  /** Unfolding the search by one step that finds a match. */
  lemma MatchesOfStep(t: string)
    requires Step(t).Some? && Step(t).value.0.Some?
    ensures Matches(t) == [Step(t).value.0.value] + Matches(t[Step(t).value.1..])
  {
  }

  /** The matches a written list should give: one per add-on, every one after the first
      starting with the `, ` that separates it from the one before. */
  function Expected(pre: string, list: seq<AddOn>): (ms: seq<Match>)
    ensures |ms| == |list|
  {
    seq(|list|, i requires 0 <= i < |list| => Match((if i == 0 then pre else ", ") + list[i].name + " ", Amount(list[i].price)))
  }

  lemma {:induction false} MatchesOfRendered(pre: string, list: seq<AddOn>)
    requires '(' !in pre && |list| >= 1
    requires forall i :: 0 <= i < |list| ==> WritableAddOn(list[i])
    ensures Matches(pre + RenderAddOns(list)) == Expected(pre, list)
    decreases |list|
  {
    if |list| == 1 {
      MatchesRendered(pre, list[0], "");
      assert pre + RenderAddOns(list) + "" == pre + RenderAddOns(list);
    } else {
      var tail := list[1..];
      forall i | 0 <= i < |tail| ensures WritableAddOn(tail[i]) {
        assert tail[i] == list[i + 1];
      }
      assert '(' !in ", " by {
        assert forall i :: 0 <= i < |", "| ==> ", "[i] == ',' || ", "[i] == ' ';
      }
      MatchesOfRendered(", ", tail);
      MatchesCons(pre, list);
    }
  }

  lemma {:induction false} MatchesCons(pre: string, list: seq<AddOn>)
    requires '(' !in pre && |list| >= 2 && WritableAddOn(list[0])
    requires Matches(", " + RenderAddOns(list[1..])) == Expected(", ", list[1..])
    ensures Matches(pre + RenderAddOns(list)) == Expected(pre, list)
  {
    var rest := ", " + RenderAddOns(list[1..]);
    RenderedCons(pre, list);
    MatchesRendered(pre, list[0], rest);
    ExpectedCons(pre, list);
  }

  lemma {:induction false} RenderedCons(pre: string, list: seq<AddOn>)
    requires |list| >= 2
    ensures pre + RenderAddOns(list) == pre + RenderAddOn(list[0]) + (", " + RenderAddOns(list[1..]))
  {
  }

  lemma {:induction false} ExpectedCons(pre: string, list: seq<AddOn>)
    requires |list| >= 2
    ensures Expected(pre, list) == [Match(pre + list[0].name + " ", Amount(list[0].price))] + Expected(", ", list[1..])
  {
    var e := Expected(pre, list);
    var t := Expected(", ", list[1..]);
    assert e[0] == Match(pre + list[0].name + " ", Amount(list[0].price));
    forall i | 1 <= i < |e| ensures e[i] == t[i - 1] {
      assert list[1..][i - 1] == list[i];
    }
  }

  lemma {:induction false} DropPrefix(pre: string, s: string)
    requires forall i :: 0 <= i < |pre| ==> IsSeparator(pre[i])
    requires s != [] && !IsSeparator(s[0])
    ensures DropSeparators(pre + s) == s
  {
    if pre == [] {
      assert pre + s == s;
    } else {
      assert (pre + s)[1..] == pre[1..] + s;
      DropPrefix(pre[1..], s);
    }
  }

  lemma {:induction false} CleanNameOfRendered(pre: string, name: string)
    requires forall i :: 0 <= i < |pre| ==> IsSeparator(pre[i])
    requires name != [] && !IsSeparator(name[0]) && !IsWhitespace(name[|name| - 1])
    ensures CleanName(pre + name + " ") == name
  {
    var t := name + " ";
    assert pre + name + " " == pre + t;
    DropPrefix(pre, t);
    assert t[0] == name[0];
    assert IsBlank(" ");
    TrimEndBlankSuffix(name, " ");
  }

  lemma {:induction false} RenderedNotBlank(list: seq<AddOn>)
    requires |list| >= 1 && WritableAddOn(list[0])
    ensures !IsBlank(RenderAddOns(list))
  {
    var s := RenderAddOns(list);
    if |list| == 1 {
      assert s == list[0].name + (" (" + list[0].price + ")");
    } else {
      assert s == list[0].name + (" (" + list[0].price + ")" + ", " + RenderAddOns(list[1..]));
    }
    assert s[0] == list[0].name[0];
  }

  /** The add-ons the expected matches of a written list give, names cleaned: the list. */
  lemma {:induction false} CleanedExpected(list: seq<AddOn>)
    requires forall i :: 0 <= i < |list| ==> WritableAddOn(list[i])
    ensures AddOnsOf(Expected("", list), true) == list
  {
    var ms := Expected("", list);
    var r := AddOnsOf(ms, true);
    forall i | 0 <= i < |list| ensures r[i] == list[i] {
      CleanedOne(if i == 0 then "" else ", ", list[i]);
    }
  }

  lemma {:induction false} CleanedOne(pre: string, a: AddOn)
    requires pre == "" || pre == ", "
    requires WritableAddOn(a)
    ensures AddOn(CleanName(pre + a.name + " "), "$" + Amount(a.price)) == a
  {
    assert forall k :: 0 <= k < |pre| ==> IsSeparator(pre[k]);
    CleanNameOfRendered(pre, a.name);
    DollarAmount(a.price);
  }

  /** Round trip: add-ons written in the documented format are read back as themselves. */
  lemma {:induction false} ParseAddOnsOfRendered(list: seq<AddOn>)
    requires |list| >= 1
    requires forall i :: 0 <= i < |list| ==> WritableAddOn(list[i])
    ensures ParseAddOns(RenderAddOns(list)) == Some(list)
  {
    var s := RenderAddOns(list);
    MatchesOfRendered("", list);
    assert "" + s == s;
    RenderedNotBlank(list);
    CleanedExpected(list);
  }

  lemma {:induction false} DollarAmount(price: string)
    requires price != [] && price[0] == '$'
    ensures "$" + Amount(price) == price
  {
    assert price == [price[0]] + price[1..];
  }

  /** The name trimming gives the second expected match keeps its separator. */
  lemma {:induction false} TrimmedSecond(list: seq<AddOn>)
    requires |list| >= 2 && WritableAddOn(list[1])
    ensures AddOnsOf(Expected("", list), false)[1].name == ", " + list[1].name
  {
    var name := ", " + list[1].name;
    assert Expected("", list)[1].before == name + " ";
    assert name[0] == ',' && !IsWhitespace(',');
    assert !IsWhitespace(name[|name| - 1]);
    assert IsBlank(" ");
    TrimPadded([], name, " ");
    assert [] + name + " " == name + " ";
  }

  /** As written, a written list parses to the trimmed texts before its parentheses. */
  lemma {:induction false} AsWrittenOfRendered(list: seq<AddOn>)
    requires |list| >= 1
    requires forall i :: 0 <= i < |list| ==> WritableAddOn(list[i])
    ensures ParseAddOnsAsWritten(RenderAddOns(list)) == Some(AddOnsOf(Expected("", list), false))
  {
    var s := RenderAddOns(list);
    MatchesOfRendered("", list);
    assert "" + s == s;
    RenderedNotBlank(list);
  }

  /** As written, every add-on after the first keeps the `, ` before its name. */
  lemma {:induction false} ParseAddOnsAsWrittenKeepsComma(list: seq<AddOn>)
    requires |list| >= 2
    requires forall i :: 0 <= i < |list| ==> WritableAddOn(list[i])
    ensures var r := ParseAddOnsAsWritten(RenderAddOns(list));
      && r.Some? && |r.value| == |list|
      && r.value[1] == AddOn(", " + list[1].name, list[1].price)
      && r.value[1].name != list[1].name
  {
    AsWrittenOfRendered(list);
    var found := AddOnsOf(Expected("", list), false);
    TrimmedSecond(list);
    DollarAmount(list[1].price);
    assert found[1] == AddOn(", " + list[1].name, list[1].price);
    assert (", " + list[1].name)[0] == ',' && list[1].name[0] != ',';
  }

  /** `A ($2), B ($3)` is the written form of the add-ons `A` at `$2` and `B` at `$3`. */
  lemma {:induction false} ExampleRendered()
    ensures RenderAddOns([AddOn("A", "$2"), AddOn("B", "$3")]) == "A ($2), B ($3)"
  {
    assert [AddOn("A", "$2"), AddOn("B", "$3")][1..] == [AddOn("B", "$3")];
  }

  /** The second add-on of `A ($2), B ($3)` is read as `, B`. */
  lemma {:induction false} AsWrittenExample()
    ensures var r := ParseAddOnsAsWritten("A ($2), B ($3)");
      r.Some? && |r.value| == 2 && r.value[1] == AddOn(", B", "$3")
  {
    var list := [AddOn("A", "$2"), AddOn("B", "$3")];
    assert WritableAddOn(list[0]) && WritableAddOn(list[1]);
    ExampleRendered();
    ParseAddOnsAsWrittenKeepsComma(list);
    assert ", " + list[1].name == ", B";
  }

  // ---------------------------------------------------------------------------
  // Rows to items

  /** `rowToMenuItem`: the name trimmed (empty when blank), description and price only when
      not blank, and dietary, spicy and add-ons only when there is something to say. */
  function RowToMenuItem(row: MenuRow): MenuItem {
    var dietary := ParseDietary(row.dietary);
    MenuItem(
      Trim(row.name),
      CsvFields.OptTrim(row.description),
      CsvFields.OptTrim(row.price),
      if |dietary| > 0 then Some(dietary) else None,
      ParseAddOns(row.addOns),
      if CsvFields.ParseBoolean(row.spicy) then Some(true) else None)
  }

  /** What `rowToMenuItem` makes of a row, field by field; the menu schema reads the item back
      from its JSON form. */
  lemma {:induction false} RowToMenuItemFields(row: MenuRow)
    ensures var item := RowToMenuItem(row);
      && item.name == Trim(row.name)
      && (item.description.None? <==> IsBlank(row.description))
      && (item.description.Some? ==> item.description.value == Trim(row.description))
      && (item.price.None? <==> IsBlank(row.price))
      && (item.price.Some? ==> item.price.value == Trim(row.price))
      && (item.dietary.Some? <==> ParseDietary(row.dietary) != [])
      && (item.dietary.Some? ==> item.dietary.value == ParseDietary(row.dietary))
      && (item.spicy.Some? <==> CsvFields.ParseBoolean(row.spicy))
      && (item.spicy.Some? ==> item.spicy.value)
      && item.addOns == ParseAddOns(row.addOns)
      && DecodeMenuItem(EncodeMenuItem(item)) == Some(item)
  {
    DecodeEncodeMenuItem(RowToMenuItem(row));
  }

  // ---------------------------------------------------------------------------
  // Grouping rows into sections

  datatype OrderedRow = OrderedRow(row: MenuRow, order: int)
  datatype Entry = Entry(item: MenuItem, order: int)
  /** A section being built: its id, the title of its first row, its entries in row order,
      and the smallest order among them. */
  datatype Group = Group(id: string, title: string, entries: seq<Entry>, minOrder: int)

  /** What the grouping reads off one row: its section id and title, trimmed, and the
      item it becomes with its order. */
  datatype Keyed = Keyed(id: string, title: string, entry: Entry)

  function KeyOf(r: OrderedRow): Keyed {
    Keyed(Trim(r.row.sectionId), Trim(r.row.sectionTitle), Entry(RowToMenuItem(r.row), r.order))
  }

  function KeyAll(rows: seq<OrderedRow>): (ks: seq<Keyed>)
    ensures |ks| == |rows| && forall i :: 0 <= i < |rows| ==> ks[i] == KeyOf(rows[i])
  {
    seq(|rows|, i requires 0 <= i < |rows| => KeyOf(rows[i]))
  }

  /** Rows with a blank section id or title are skipped. */
  predicate Kept(k: Keyed) {
    k.id != "" && k.title != ""
  }

  predicate InSection(id: string, k: Keyed) {
    Kept(k) && k.id == id
  }

  /** The ids of the sections, in the order their first rows come. */
  function SectionIds(ks: seq<Keyed>): seq<string> {
    if ks == [] then []
    else
      var ids := SectionIds(ks[..|ks| - 1]);
      var last := ks[|ks| - 1];
      if Kept(last) && last.id !in ids then ids + [last.id] else ids
  }

  /** The entries of the rows of section `id`, in row order. */
  function EntriesOf(ks: seq<Keyed>, id: string): seq<Entry> {
    if ks == [] then []
    else if InSection(id, ks[|ks| - 1]) then EntriesOf(ks[..|ks| - 1], id) + [ks[|ks| - 1].entry]
    else EntriesOf(ks[..|ks| - 1], id)
  }

  /** The title of the first row of section `id`. */
  function TitleOf(ks: seq<Keyed>, id: string): string {
    if ks == [] then ""
    else
      var init, last := ks[..|ks| - 1], ks[|ks| - 1];
      if InSection(id, last) && id !in SectionIds(init) then last.title else TitleOf(init, id)
  }

  /** The smallest order among the rows of section `id`. */
  function MinOrderOf(ks: seq<Keyed>, id: string): int {
    if ks == [] then 0
    else
      var init, last := ks[..|ks| - 1], ks[|ks| - 1];
      if !InSection(id, last) then MinOrderOf(init, id)
      else if id !in SectionIds(init) || last.entry.order < MinOrderOf(init, id) then last.entry.order
      else MinOrderOf(init, id)
  }

  function GroupOf(ks: seq<Keyed>, id: string): Group {
    Group(id, TitleOf(ks, id), EntriesOf(ks, id), MinOrderOf(ks, id))
  }

  function GroupsOf(ks: seq<Keyed>, ids: seq<string>): (gs: seq<Group>)
    ensures |gs| == |ids| && forall i :: 0 <= i < |ids| ==> gs[i] == GroupOf(ks, ids[i])
  {
    if ids == [] then [] else GroupsOf(ks, ids[..|ids| - 1]) + [GroupOf(ks, ids[|ids| - 1])]
  }

  lemma {:induction false} GroupsOfPointwise(ks: seq<Keyed>, ids: seq<string>, gs: seq<Group>)
    requires |gs| == |ids| && forall i :: 0 <= i < |ids| ==> gs[i] == GroupOf(ks, ids[i])
    ensures gs == GroupsOf(ks, ids)
  {
  }

  /** Sections by smallest order, then by title. */
  predicate SectionBefore(a: Group, b: Group) {
    Compare.KeyThenText(a.minOrder, a.title, b.minOrder, b.title)
  }

  /** Items by order, then by name. */
  predicate EntryBefore(a: Entry, b: Entry) {
    Compare.KeyThenText(a.order, a.item.name, b.order, b.item.name)
  }

  function ItemsOf(entries: seq<Entry>): (items: seq<MenuItem>)
    ensures |items| == |entries| && forall i :: 0 <= i < |entries| ==> items[i] == entries[i].item
  {
    if entries == [] then [] else [entries[0].item] + ItemsOf(entries[1..])
  }

  function Finish(g: Group): MenuSection {
    MenuSection(g.id, g.title, None, ItemsOf(Lists.SortBy(g.entries, EntryBefore)))
  }

  function FinishAll(gs: seq<Group>): (r: seq<MenuSection>)
    ensures |r| == |gs| && forall i :: 0 <= i < |gs| ==> r[i] == Finish(gs[i])
  {
    if gs == [] then [] else [Finish(gs[0])] + FinishAll(gs[1..])
  }

  /** What `groupIntoSections` returns for `rows`. */
  function SectionsOf(rows: seq<OrderedRow>): seq<MenuSection> {
    SectionsOfKeyed(KeyAll(rows))
  }

  /** The sections of rows already reduced to their keys. */
  function SectionsOfKeyed(ks: seq<Keyed>): seq<MenuSection> {
    FinishAll(Lists.SortBy(GroupsOf(ks, SectionIds(ks)), SectionBefore))
  }

  // One more row: what it changes.

  lemma {:induction false} IdsStep(ks: seq<Keyed>, i: nat)
    requires i < |ks|
    ensures SectionIds(ks[..i + 1]) ==
      if Kept(ks[i]) && ks[i].id !in SectionIds(ks[..i]) then SectionIds(ks[..i]) + [ks[i].id] else SectionIds(ks[..i])
  {
    var q := ks[..i + 1];
    assert |q| == i + 1 && q[..i] == ks[..i] && q[i] == ks[i];
  }

  /** One more row leaves every other section as it was. */
  lemma {:induction false} GroupOtherStep(ks: seq<Keyed>, i: nat, id: string)
    requires i < |ks| && !InSection(id, ks[i])
    ensures GroupOf(ks[..i + 1], id) == GroupOf(ks[..i], id)
  {
    var q := ks[..i + 1];
    assert |q| == i + 1 && q[..i] == ks[..i] && q[i] == ks[i];
  }

  /** A section that has not been seen has no entries yet. */
  lemma {:induction false} EntriesOfUnseen(ks: seq<Keyed>, id: string)
    requires id !in SectionIds(ks)
    ensures EntriesOf(ks, id) == []
    decreases |ks|
  {
    if ks != [] {
      EntriesOfUnseen(ks[..|ks| - 1], id);
    }
  }

  /** The first row of a section starts it. */
  lemma {:induction false} GroupNewStep(ks: seq<Keyed>, i: nat)
    requires i < |ks| && Kept(ks[i]) && ks[i].id !in SectionIds(ks[..i])
    ensures GroupOf(ks[..i + 1], ks[i].id) == Group(ks[i].id, ks[i].title, [ks[i].entry], ks[i].entry.order)
  {
    var q := ks[..i + 1];
    assert |q| == i + 1 && q[..i] == ks[..i] && q[i] == ks[i];
    EntriesOfUnseen(ks[..i], ks[i].id);
  }

  /** A later row of a section adds its entry and may lower the section's order. */
  lemma {:induction false} GroupSeenStep(ks: seq<Keyed>, i: nat)
    requires i < |ks| && Kept(ks[i]) && ks[i].id in SectionIds(ks[..i])
    ensures var k, g := ks[i], GroupOf(ks[..i], ks[i].id);
      GroupOf(ks[..i + 1], k.id) == g.(entries := g.entries + [k.entry], minOrder := if k.entry.order < g.minOrder then k.entry.order else g.minOrder)
  {
    var q := ks[..i + 1];
    assert |q| == i + 1 && q[..i] == ks[..i] && q[i] == ks[i];
  }

  // The section map.

  /** The section map and its insertion order describe the sections of `ks`. */
  ghost predicate Grouped(ks: seq<Keyed>, sectionMap: map<string, Group>, keys: seq<string>) {
    && keys == SectionIds(ks)
    && (forall id :: id in sectionMap <==> id in keys)
    && (forall id :: id in sectionMap ==> sectionMap[id] == GroupOf(ks, id))
  }

  /** A row with a blank section id or title changes nothing. */
  lemma {:induction false} GroupedSkip(ks: seq<Keyed>, i: nat, sectionMap: map<string, Group>, keys: seq<string>)
    requires i < |ks| && !Kept(ks[i]) && Grouped(ks[..i], sectionMap, keys)
    ensures Grouped(ks[..i + 1], sectionMap, keys)
  {
    IdsStep(ks, i);
    forall id | id in sectionMap ensures sectionMap[id] == GroupOf(ks[..i + 1], id) {
      GroupOtherStep(ks, i, id);
    }
  }

  /** Setting the section of row `i` to its new value, and no other, keeps the map in step. */
  lemma {:induction false} GroupedUpdate(ks: seq<Keyed>, i: nat, before: map<string, Group>, keys: seq<string>, keys': seq<string>)
    requires i < |ks| && Kept(ks[i]) && Grouped(ks[..i], before, keys)
    requires keys' == SectionIds(ks[..i + 1]) && (forall k :: k in keys' <==> k in keys || k == ks[i].id)
    ensures Grouped(ks[..i + 1], before[ks[i].id := GroupOf(ks[..i + 1], ks[i].id)], keys')
  {
    var id := ks[i].id;
    var after := before[id := GroupOf(ks[..i + 1], id)];
    forall k | k in after ensures after[k] == GroupOf(ks[..i + 1], k) {
      if k != id {
        GroupOtherStep(ks, i, k);
      }
    }
  }

  /** The entry of a row pushed onto a section, lowering its order if need be. */
  function Push(g: Group, e: Entry): Group {
    g.(entries := g.entries + [e], minOrder := if e.order < g.minOrder then e.order else g.minOrder)
  }

  lemma {:induction false} PushSeen(ks: seq<Keyed>, i: nat, before: map<string, Group>, keys: seq<string>)
    requires i < |ks| && Kept(ks[i]) && Grouped(ks[..i], before, keys) && ks[i].id in before
    ensures Grouped(ks[..i + 1], before[ks[i].id := Push(before[ks[i].id], ks[i].entry)], keys)
  {
    IdsStep(ks, i);
    GroupSeenStep(ks, i);
    GroupedUpdate(ks, i, before, keys, keys);
  }

  lemma {:induction false} PushCreated(ks: seq<Keyed>, i: nat, before: map<string, Group>, keys: seq<string>)
    requires i < |ks| && Kept(ks[i]) && Grouped(ks[..i], before, keys) && ks[i].id !in before
    ensures var k := ks[i];
      var m := before[k.id := Group(k.id, k.title, [], k.entry.order)];
      Grouped(ks[..i + 1], m[k.id := Push(m[k.id], k.entry)], keys + [k.id])
  {
    var k := ks[i];
    var g := Group(k.id, k.title, [], k.entry.order);
    assert [] + [k.entry] == [k.entry];
    OverwriteTwice(before, k.id, g, Push(g, k.entry));
    IdsStep(ks, i);
    GroupNewStep(ks, i);
    GroupedUpdate(ks, i, before, keys, keys + [k.id]);
  }

  lemma {:induction false} OverwriteTwice(m: map<string, Group>, k: string, a: Group, b: Group)
    ensures m[k := a][k := b] == m[k := b]
  {
  }

  /** A kept row is pushed onto its section, the section first created when it is new:
      `m` and `keys'` are the map and keys after that creation. */
  lemma {:induction false} GroupedPush(ks: seq<Keyed>, i: nat, before: map<string, Group>, keys: seq<string>,
                                       m: map<string, Group>, keys': seq<string>)
    requires i < |ks| && Kept(ks[i]) && Grouped(ks[..i], before, keys)
    requires var k := ks[i];
      if k.id in before then m == before && keys' == keys
      else m == before[k.id := Group(k.id, k.title, [], k.entry.order)] && keys' == keys + [k.id]
    ensures Grouped(ks[..i + 1], m[ks[i].id := Push(m[ks[i].id], ks[i].entry)], keys')
  {
    if ks[i].id in before {
      PushSeen(ks, i, before, keys);
    } else {
      PushCreated(ks, i, before, keys);
    }
  }

  /** The first half of `groupIntoSections`: one pass over the rows filling the section
      map. `keys` is the map's insertion order, the order its values come out in. */
  method CollectSections(rows: seq<OrderedRow>) returns (sectionMap: map<string, Group>, keys: seq<string>)
    ensures Grouped(KeyAll(rows), sectionMap, keys)
  {
    ghost var ks := KeyAll(rows);
    sectionMap := map[];
    keys := [];
    for i := 0 to |rows|
      invariant Grouped(ks[..i], sectionMap, keys)
    {
      var r := rows[i];
      var sectionId := Trim(r.row.sectionId);
      var sectionTitle := Trim(r.row.sectionTitle);
      var entry := Entry(RowToMenuItem(r.row), r.order);
      assert ks[i] == Keyed(sectionId, sectionTitle, entry);
      if sectionId == "" || sectionTitle == "" {
        GroupedSkip(ks, i, sectionMap, keys);
        continue;
      }
      ghost var before, keysBefore := sectionMap, keys;
      if sectionId !in sectionMap {
        sectionMap := sectionMap[sectionId := Group(sectionId, sectionTitle, [], r.order)];
        keys := keys + [sectionId];
      }
      GroupedPush(ks, i, before, keysBefore, sectionMap, keys);
      var section := sectionMap[sectionId];
      ghost var pushed := Push(section, entry);
      section := section.(entries := section.entries + [entry]);
      if r.order < section.minOrder {
        section := section.(minOrder := r.order);
      }
      assert section == pushed;
      sectionMap := sectionMap[sectionId := section];
    }
    assert ks[..|rows|] == ks;
  }

  /** `groupIntoSections`: the section map, its values sorted by smallest order then title,
      and each section's items sorted by order then name. */
  method GroupIntoSections(rows: seq<OrderedRow>) returns (sections: seq<MenuSection>)
    ensures sections == SectionsOf(rows)
  {
    var sectionMap, keys := CollectSections(rows);
    var groups := seq(|keys|, k requires 0 <= k < |keys| => sectionMap[keys[k]]);
    GroupsOfPointwise(KeyAll(rows), keys, groups);
    sections := FinishAll(Lists.SortBy(groups, SectionBefore));
  }

  lemma {:induction false} SectionBeforeTotal()
    ensures Lists.TotalPreorder(SectionBefore)
  {
    forall a: Group, b: Group ensures SectionBefore(a, b) || SectionBefore(b, a) {
      Compare.KeyThenTextTotal(a.minOrder, a.title, b.minOrder, b.title);
    }
    forall a: Group, b: Group, c: Group | SectionBefore(a, b) && SectionBefore(b, c) ensures SectionBefore(a, c) {
      Compare.KeyThenTextTransitive(a.minOrder, a.title, b.minOrder, b.title, c.minOrder, c.title);
    }
  }

  lemma {:induction false} EntryBeforeTotal()
    ensures Lists.TotalPreorder(EntryBefore)
  {
    forall a: Entry, b: Entry ensures EntryBefore(a, b) || EntryBefore(b, a) {
      Compare.KeyThenTextTotal(a.order, a.item.name, b.order, b.item.name);
    }
    forall a: Entry, b: Entry, c: Entry | EntryBefore(a, b) && EntryBefore(b, c) ensures EntryBefore(a, c) {
      Compare.KeyThenTextTransitive(a.order, a.item.name, b.order, b.item.name, c.order, c.item.name);
    }
  }

  // ---------------------------------------------------------------------------
  // What the sections are

  /** A section id is listed exactly when some kept row carries it. */
  lemma {:induction false} SectionIdsMembers(ks: seq<Keyed>, id: string)
    ensures id in SectionIds(ks) <==> exists k :: k in ks && InSection(id, k)
    decreases |ks|
  {
    if ks != [] {
      var init, last := ks[..|ks| - 1], ks[|ks| - 1];
      SectionIdsMembers(init, id);
      IdsOfLast(ks, id);
      assert ks == init + [last];
    }
  }

  /** The last row adds at most its own id, and keeps those before. */
  lemma {:induction false} IdsOfLast(ks: seq<Keyed>, id: string)
    requires ks != []
    ensures id in SectionIds(ks) <==> id in SectionIds(ks[..|ks| - 1]) || InSection(id, ks[|ks| - 1])
  {
  }

  /** Each section is listed once. */
  lemma {:induction false} SectionIdsDistinct(ks: seq<Keyed>)
    ensures forall i, j :: 0 <= i < j < |SectionIds(ks)| ==> SectionIds(ks)[i] != SectionIds(ks)[j]
    decreases |ks|
  {
    if ks != [] {
      var init, last := ks[..|ks| - 1], ks[|ks| - 1];
      SectionIdsDistinct(init);
      var ids := SectionIds(init);
      if Kept(last) && last.id !in ids {
        var ids' := ids + [last.id];
        assert SectionIds(ks) == ids';
        forall i, j | 0 <= i < j < |ids'| ensures ids'[i] != ids'[j] {
          assert ids'[i] == ids[i];
          if j == |ids| {
            assert ids[i] in ids;
          } else {
            assert ids'[j] == ids[j];
          }
        }
      } else {
        assert SectionIds(ks) == ids;
      }
    }
  }

  /** The entries of the rows, one per row, in order. */
  function EntriesOfKeyed(ks: seq<Keyed>): (es: seq<Entry>)
    ensures |es| == |ks| && forall i :: 0 <= i < |ks| ==> es[i] == ks[i].entry
  {
    if ks == [] then [] else EntriesOfKeyed(ks[..|ks| - 1]) + [ks[|ks| - 1].entry]
  }

  /** A section holds the items of the kept rows with its id, in row order. */
  lemma {:induction false} EntriesOfFiltered(ks: seq<Keyed>, id: string)
    ensures EntriesOf(ks, id) == EntriesOfKeyed(Lists.Filter(ks, k => InSection(id, k)))
    decreases |ks|
  {
    if ks != [] {
      var init, last := ks[..|ks| - 1], ks[|ks| - 1];
      EntriesOfFiltered(init, id);
      var f := Lists.Filter(init, k => InSection(id, k));
      if InSection(id, last) {
        assert Lists.Filter(ks, k => InSection(id, k)) == f + [last];
        assert (f + [last])[..|f|] == f;
      } else {
        assert Lists.Filter(ks, k => InSection(id, k)) == f;
      }
    }
  }

  /** A section's title is the title of its first row. */
  lemma {:induction false} TitleOfFirst(ks: seq<Keyed>, i: nat)
    requires i < |ks| && Kept(ks[i])
    requires forall j :: 0 <= j < i ==> !InSection(ks[i].id, ks[j])
    ensures TitleOf(ks, ks[i].id) == ks[i].title
    decreases |ks|
  {
    var id := ks[i].id;
    var init := ks[..|ks| - 1];
    SectionIdsMembers(init, id);
    if i == |ks| - 1 {
      forall k | k in init ensures !InSection(id, k) {
        var j :| 0 <= j < |init| && init[j] == k;
        assert ks[j] == k;
      }
    } else {
      assert init[i] == ks[i];
      forall j | 0 <= j < i ensures !InSection(id, init[j]) {
        assert init[j] == ks[j];
      }
      TitleOfFirst(init, i);
      assert init[i] in init;
    }
  }

  /** A section's order is the smallest order of its items. */
  lemma {:induction false} MinOrderOfLeast(ks: seq<Keyed>, id: string)
    requires id in SectionIds(ks)
    ensures forall k :: 0 <= k < |EntriesOf(ks, id)| ==> MinOrderOf(ks, id) <= EntriesOf(ks, id)[k].order
    ensures exists k :: 0 <= k < |EntriesOf(ks, id)| && EntriesOf(ks, id)[k].order == MinOrderOf(ks, id)
    decreases |ks|
  {
    var init, last := ks[..|ks| - 1], ks[|ks| - 1];
    if InSection(id, last) {
      if id in SectionIds(init) {
        MinOrderOfLeast(init, id);
        var es := EntriesOf(init, id);
        assert EntriesOf(ks, id) == es + [last.entry];
        var k :| 0 <= k < |es| && es[k].order == MinOrderOf(init, id);
        if last.entry.order < MinOrderOf(init, id) {
          assert EntriesOf(ks, id)[|es|].order == MinOrderOf(ks, id);
        } else {
          assert EntriesOf(ks, id)[k].order == MinOrderOf(ks, id);
        }
      } else {
        EntriesOfUnseen(init, id);
        assert EntriesOf(ks, id) == [last.entry];
        assert EntriesOf(ks, id)[0].order == MinOrderOf(ks, id);
      }
    } else {
      IdsOfLast(ks, id);
      MinOrderOfLeast(init, id);
      assert EntriesOf(ks, id) == EntriesOf(init, id);
      assert MinOrderOf(ks, id) == MinOrderOf(init, id);
    }
  }

  /** The sorted groups are the groups of the listed sections. */
  lemma {:induction false} SortedGroupIds(ks: seq<Keyed>)
    ensures var sorted := Lists.SortBy(GroupsOf(ks, SectionIds(ks)), SectionBefore);
      forall g :: g in sorted ==> g == GroupOf(ks, g.id) && g.id in SectionIds(ks)
  {
    var gs := GroupsOf(ks, SectionIds(ks));
    Lists.SortByMembers(gs, SectionBefore);
  }

  /** `groupIntoSections` lists sections of the rows only, each made from its own rows,
      ordered by smallest order and then by title. */
  lemma {:induction false} SectionsOfOrdered(ks: seq<Keyed>)
    ensures forall i :: 0 <= i < |SectionsOfKeyed(ks)| ==>
      SectionsOfKeyed(ks)[i].id in SectionIds(ks) && SectionsOfKeyed(ks)[i] == Finish(GroupOf(ks, SectionsOfKeyed(ks)[i].id))
    ensures forall i, j :: 0 <= i < j < |SectionsOfKeyed(ks)| ==>
      SectionBefore(GroupOf(ks, SectionsOfKeyed(ks)[i].id), GroupOf(ks, SectionsOfKeyed(ks)[j].id))
  {
    var gs := GroupsOf(ks, SectionIds(ks));
    var sorted := Lists.SortBy(gs, SectionBefore);
    SectionBeforeTotal();
    Lists.SortBySorted(gs, SectionBefore);
    SortedGroupIds(ks);
    var r := SectionsOfKeyed(ks);
    forall i | 0 <= i < |r| ensures r[i].id == sorted[i].id && sorted[i] == GroupOf(ks, r[i].id) {
      assert sorted[i] in sorted;
    }
  }

  /** Every section of the rows is in the result. */
  lemma {:induction false} SectionsOfComplete(ks: seq<Keyed>, id: string)
    requires id in SectionIds(ks)
    ensures exists i :: 0 <= i < |SectionsOfKeyed(ks)| && SectionsOfKeyed(ks)[i].id == id
  {
    var gs := GroupsOf(ks, SectionIds(ks));
    var sorted := Lists.SortBy(gs, SectionBefore);
    var r := SectionsOfKeyed(ks);
    var k :| 0 <= k < |SectionIds(ks)| && SectionIds(ks)[k] == id;
    assert gs[k] in gs;
    Lists.SortByMembers(gs, SectionBefore);
    var i :| 0 <= i < |sorted| && sorted[i] == gs[k];
    assert r[i] == Finish(sorted[i]);
  }

  /** A finished section's items are its entries' items, reordered by order and then name. */
  lemma {:induction false} FinishSorted(g: Group)
    ensures exists es: seq<Entry> ::
      && multiset(es) == multiset(g.entries)
      && Lists.SortedBy(es, EntryBefore)
      && Finish(g).items == ItemsOf(es)
  {
    var es := Lists.SortBy(g.entries, EntryBefore);
    EntryBeforeTotal();
    Lists.SortBySorted(g.entries, EntryBefore);
  }

  /** A section's entries are exactly the entries of the kept rows with its id. */
  lemma {:induction false} EntriesOfMembers(ks: seq<Keyed>, id: string, e: Entry)
    ensures e in EntriesOf(ks, id) <==> exists k :: k in ks && InSection(id, k) && k.entry == e
    decreases |ks|
  {
    if ks != [] {
      var init, last := ks[..|ks| - 1], ks[|ks| - 1];
      EntriesOfMembers(init, id, e);
      assert ks == init + [last];
      if exists k :: k in ks && InSection(id, k) && k.entry == e {
        var k :| k in ks && InSection(id, k) && k.entry == e;
        if k != last {
          assert k in init;
        }
      }
    }
  }

  /** A finished section lists the items of its entries, and only those. */
  lemma {:induction false} FinishItems(g: Group, item: MenuItem)
    ensures item in Finish(g).items <==> exists e :: e in g.entries && e.item == item
  {
    var es := Lists.SortBy(g.entries, EntryBefore);
    Lists.SortByMembers(g.entries, EntryBefore);
    var items := ItemsOf(es);
    if item in items {
      var j :| 0 <= j < |items| && items[j] == item;
      assert es[j] in es;
    }
    if exists e :: e in g.entries && e.item == item {
      var e :| e in g.entries && e.item == item;
      var j :| 0 <= j < |es| && es[j] == e;
      assert items[j] == item;
    }
  }

  /** No two sections share an id. */
  lemma {:induction false} SectionsOfDistinct(ks: seq<Keyed>)
    ensures forall i, j :: 0 <= i < j < |SectionsOfKeyed(ks)| ==> SectionsOfKeyed(ks)[i].id != SectionsOfKeyed(ks)[j].id
  {
    var ids := SectionIds(ks);
    var gs := GroupsOf(ks, ids);
    var sorted := Lists.SortBy(gs, SectionBefore);
    var r := SectionsOfKeyed(ks);
    SectionIdsDistinct(ks);
    forall a, b | 0 <= a < b < |gs| ensures gs[a] != gs[b] {
      assert gs[a].id == ids[a] && gs[b].id == ids[b];
    }
    Lists.DistinctPermutation(gs, sorted);
    SortedGroupIds(ks);
    forall i, j | 0 <= i < j < |r| ensures r[i].id != r[j].id {
      assert sorted[i] in sorted && sorted[j] in sorted;
      assert r[i].id == sorted[i].id && r[j].id == sorted[j].id;
    }
  }

  /** Every kept row's item is in the one section with the row's id. */
  lemma {:induction false} RowInItsSection(ks: seq<Keyed>, j: nat)
    requires j < |ks| && Kept(ks[j])
    ensures exists i :: 0 <= i < |SectionsOfKeyed(ks)| && SectionsOfKeyed(ks)[i].id == ks[j].id
                        && ks[j].entry.item in SectionsOfKeyed(ks)[i].items
  {
    var id := ks[j].id;
    assert ks[j] in ks;
    SectionIdsMembers(ks, id);
    SectionsOfComplete(ks, id);
    var r := SectionsOfKeyed(ks);
    var i :| 0 <= i < |r| && r[i].id == id;
    SectionsOfOrdered(ks);
    EntriesOfMembers(ks, id, ks[j].entry);
    FinishItems(GroupOf(ks, id), ks[j].entry.item);
  }

  /** Every item of a section is the item of a kept row with the section's id. */
  lemma {:induction false} SectionItemsFromRows(ks: seq<Keyed>, i: nat, item: MenuItem)
    requires i < |SectionsOfKeyed(ks)| && item in SectionsOfKeyed(ks)[i].items
    ensures exists m :: 0 <= m < |ks| && InSection(SectionsOfKeyed(ks)[i].id, ks[m]) && ks[m].entry.item == item
  {
    var r := SectionsOfKeyed(ks);
    var id := r[i].id;
    SectionsOfOrdered(ks);
    FinishItems(GroupOf(ks, id), item);
    var e :| e in EntriesOf(ks, id) && e.item == item;
    EntriesOfMembers(ks, id, e);
    var k :| k in ks && InSection(id, k) && k.entry == e;
    var m :| 0 <= m < |ks| && ks[m] == k;
  }

  // ---------------------------------------------------------------------------
  // Active rows and the reader

  predicate IsActive(row: MenuRow) {
    CsvFields.ParseBoolean(row.active)
  }

  function WithOrder(row: MenuRow): OrderedRow {
    OrderedRow(row, CsvFields.ParseOrder(row.order))
  }

  /** `records.filter(row => parseActive(row.Active)).map(...)`: the active rows, in their
      order, each with its parsed order. */
  function ActiveRows(records: seq<MenuRow>): (r: seq<OrderedRow>)
    ensures forall i :: 0 <= i < |r| ==> r[i].order == CsvFields.ParseOrder(r[i].row.order)
  {
    Lists.Map(Lists.Filter(records, IsActive), WithOrder)
  }

  /** Every row kept is an active row of the records. */
  lemma {:induction false} ActiveRowFrom(records: seq<MenuRow>, i: nat)
    requires i < |ActiveRows(records)|
    ensures ActiveRows(records)[i].row in records && IsActive(ActiveRows(records)[i].row)
  {
    var kept := Lists.Filter(records, IsActive);
    assert ActiveRows(records)[i] == WithOrder(kept[i]);
    assert kept[i] in kept;
  }

  /** Every active row of the records is kept, with its parsed order. */
  lemma {:induction false} ActiveRowKept(records: seq<MenuRow>, row: MenuRow)
    requires row in records && IsActive(row)
    ensures exists i :: 0 <= i < |ActiveRows(records)| && ActiveRows(records)[i] == WithOrder(row)
  {
    var kept := Lists.Filter(records, IsActive);
    assert row in kept;
    var i :| 0 <= i < |kept| && kept[i] == row;
    assert ActiveRows(records)[i] == WithOrder(row);
  }

  /** No row is kept exactly when no row is active. */
  lemma {:induction false} NoActiveRows(records: seq<MenuRow>)
    ensures ActiveRows(records) == [] <==> forall row :: row in records ==> !IsActive(row)
  {
    var kept := Lists.Filter(records, IsActive);
    if kept != [] {
      assert kept[0] in kept;
    }
  }

  /** `processRecords`: the menu of the active rows, stamped `now`; the fallback menu when
      no row is active. */
  method ProcessRecords(records: seq<MenuRow>, now: string, fallback: MenuData) returns (menu: MenuData)
    ensures ActiveRows(records) == [] ==> menu == fallback
    ensures ActiveRows(records) != [] ==> menu == MenuData(now, SectionsOf(ActiveRows(records)))
  {
    var activeRows := ActiveRows(records);
    if |activeRows| == 0 {
      return fallback;
    }
    var sections := GroupIntoSections(activeRows);
    menu := MenuData(now, sections);
  }

  /** Every item of the sections of some rows is the item of a row filed under the
      section's id with a title. */
  lemma {:induction false} SectionItemFromRow(rows: seq<OrderedRow>, i: nat, item: MenuItem)
    requires i < |SectionsOf(rows)| && item in SectionsOf(rows)[i].items
    ensures exists m :: 0 <= m < |rows| && RowToMenuItem(rows[m].row) == item
              && Trim(rows[m].row.sectionId) == SectionsOf(rows)[i].id && Trim(rows[m].row.sectionTitle) != ""
  {
    var ks := KeyAll(rows);
    SectionItemsFromRows(ks, i, item);
    var m :| 0 <= m < |ks| && InSection(SectionsOfKeyed(ks)[i].id, ks[m]) && ks[m].entry.item == item;
    assert ks[m] == KeyOf(rows[m]);
  }

  /** Every item of the menu read from the rows is the item of an active row filed under the
      section's id with a title. */
  lemma {:induction false} ProcessedItemsActive(records: seq<MenuRow>, i: nat, item: MenuItem)
    requires i < |SectionsOf(ActiveRows(records))| && item in SectionsOf(ActiveRows(records))[i].items
    ensures exists row :: row in records && IsActive(row) && RowToMenuItem(row) == item
              && Trim(row.sectionId) == SectionsOf(ActiveRows(records))[i].id && Trim(row.sectionTitle) != ""
  {
    var rows := ActiveRows(records);
    SectionItemFromRow(rows, i, item);
    var m :| 0 <= m < |rows| && RowToMenuItem(rows[m].row) == item
              && Trim(rows[m].row.sectionId) == SectionsOf(rows)[i].id && Trim(rows[m].row.sectionTitle) != "";
    ActiveRowFrom(records, m);
  }

  /** Every row with a section id and title lands in the section with its id. */
  lemma {:induction false} RowPlaced(rows: seq<OrderedRow>, m: nat)
    requires m < |rows| && Trim(rows[m].row.sectionId) != "" && Trim(rows[m].row.sectionTitle) != ""
    ensures exists i :: 0 <= i < |SectionsOf(rows)| && SectionsOf(rows)[i].id == Trim(rows[m].row.sectionId)
              && RowToMenuItem(rows[m].row) in SectionsOf(rows)[i].items
  {
    var ks := KeyAll(rows);
    var r := SectionsOfKeyed(ks);
    assert SectionsOf(rows) == r;
    var k := ks[m];
    assert k == KeyOf(rows[m]);
    RowInItsSection(ks, m);
    var i :| 0 <= i < |r| && r[i].id == k.id && k.entry.item in r[i].items;
  }

  /** Every active row with a section id and title lands in the section with its id. */
  lemma {:induction false} ActiveRowPlaced(records: seq<MenuRow>, row: MenuRow)
    requires row in records && IsActive(row)
    requires Trim(row.sectionId) != "" && Trim(row.sectionTitle) != ""
    ensures exists i :: 0 <= i < |SectionsOf(ActiveRows(records))|
              && SectionsOf(ActiveRows(records))[i].id == Trim(row.sectionId)
              && RowToMenuItem(row) in SectionsOf(ActiveRows(records))[i].items
  {
    var rows := ActiveRows(records);
    ActiveRowKept(records, row);
    var m :| 0 <= m < |rows| && rows[m] == WithOrder(row);
    RowPlaced(rows, m);
  }

  /** `getMenuFromSheets`: the menu of the rows the spreadsheet yields, or the fallback menu
      when fetching or reading it fails. */
  method GetMenuFromSheets(fetched: Result<seq<MenuRow>>, now: string, fallback: MenuData) returns (menu: MenuData)
    ensures fetched.Err? ==> menu == fallback
    ensures fetched.Ok? && ActiveRows(fetched.value) == [] ==> menu == fallback
    ensures fetched.Ok? && ActiveRows(fetched.value) != [] ==> menu == MenuData(now, SectionsOf(ActiveRows(fetched.value)))
  {
    if fetched.Err? {
      return fallback;
    }
    menu := ProcessRecords(fetched.value, now, fallback);
  }

  /** `getFoodMenuFromSheets` / `getDrinksMenuFromSheets`: without a configured address the
      fallback menu, without fetching; otherwise `getMenuFromSheets` on what the address
      yields. */
  method MenuFromSheets(url: Option<string>, fetched: Result<seq<MenuRow>>, now: string, fallback: MenuData)
    returns (menu: MenuData)
    ensures url.None? || url.value == "" ==> menu == fallback
    ensures url.Some? && url.value != "" && fetched.Ok? && ActiveRows(fetched.value) != [] ==>
              menu == MenuData(now, SectionsOf(ActiveRows(fetched.value)))
    ensures url.Some? && url.value != "" && (fetched.Err? || ActiveRows(fetched.value) == []) ==> menu == fallback
  {
    if url.None? || url.value == "" {
      return fallback;
    }
    menu := GetMenuFromSheets(fetched, now, fallback);
  }
}
