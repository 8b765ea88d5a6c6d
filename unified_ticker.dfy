/**
 * The scrolling ticker of `components/UnifiedTicker.tsx`: the specials items followed by
 * the next-event item, a default item when there is neither, and the list written out
 * twice with a React key per entry.
 */
module UnifiedTicker {
  import opened Wrappers
  import opened Text
  import opened TickerData

  /** One rendered `<span>`: its React key and the item it shows. */
  datatype Entry = Entry(key: string, item: TickerItem)

  const DefaultText := "Check Events for What's Happening"

  /** The default item, with the party popper every event item carries. */
  function DefaultItem(): TickerItem {
    TickerItem("default", DefaultText, PartyPopper)
  }

  /** `[...specialsItems]` with the event item pushed when there is one. */
  function AllItems(specialsItems: seq<TickerItem>, nextEventItem: Option<TickerItem>): seq<TickerItem> {
    specialsItems + (if nextEventItem.Some? then [nextEventItem.value] else [])
  }

  /** `tickerItems`: the combined items, or the default item alone. */
  function TickerItems(specialsItems: seq<TickerItem>, nextEventItem: Option<TickerItem>): seq<TickerItem> {
    var all := AllItems(specialsItems, nextEventItem);
    if |all| > 0 then all else [DefaultItem()]
  }

  /** The key of the entry at `index`: `${item.id}-${index}`. */
  function KeyOf(id: string, index: nat): string {
    id + "-" + NatToString(index)
  }

  /** The rendered entries of the component. */
  method Render(specialsItems: seq<TickerItem>, nextEventItem: Option<TickerItem>) returns (entries: seq<Entry>)
    ensures var items := TickerItems(specialsItems, nextEventItem);
      && |entries| == 2 * |items|
      && (forall i :: 0 <= i < |items| ==> entries[i].item == items[i] && entries[i + |items|].item == items[i])
      && (forall i :: 0 <= i < |entries| ==> entries[i].key == KeyOf(entries[i].item.id, i))
    ensures forall i, j :: 0 <= i < j < |entries| ==> entries[i].key != entries[j].key
  {
    var allItems := specialsItems;
    if nextEventItem.Some? {
      allItems := allItems + [nextEventItem.value];
    }
    var tickerItems := if |allItems| > 0 then allItems else [DefaultItem()];
    var doubledItems := tickerItems + tickerItems;
    entries := seq(|doubledItems|, index requires 0 <= index < |doubledItems| =>
                     Entry(KeyOf(doubledItems[index].id, index), doubledItems[index]));
    forall i, j | 0 <= i < j < |entries| ensures entries[i].key != entries[j].key {
      KeysDistinct(entries[i].item.id, i, entries[j].item.id, j);
    }
  }

  /** The next-event item comes after every specials item, and nothing else is added. */
  lemma {:induction false} EventAfterSpecials(specialsItems: seq<TickerItem>, nextEventItem: Option<TickerItem>)
    ensures var all := AllItems(specialsItems, nextEventItem);
      && all[..|specialsItems|] == specialsItems
      && (nextEventItem.Some? <==> |all| == |specialsItems| + 1)
      && (nextEventItem.Some? ==> all[|specialsItems|] == nextEventItem.value)
  {
    var all := AllItems(specialsItems, nextEventItem);
    assert all[..|specialsItems|] == specialsItems;
  }

  /** The default item is shown alone exactly when there are no specials and no event. */
  lemma {:induction false} DefaultWhenEmpty(specialsItems: seq<TickerItem>, nextEventItem: Option<TickerItem>)
    ensures |TickerItems(specialsItems, nextEventItem)| >= 1
    ensures specialsItems == [] && nextEventItem.None? ==> TickerItems(specialsItems, nextEventItem) == [DefaultItem()]
    ensures specialsItems != [] || nextEventItem.Some? ==>
              TickerItems(specialsItems, nextEventItem) == AllItems(specialsItems, nextEventItem)
  {
  }

  /** Two keys at different indices differ, whatever the ids: the text after the last `-`
      is the index. */
  lemma {:induction false} KeysDistinct(id1: string, i: nat, id2: string, j: nat)
    requires i != j
    ensures KeyOf(id1, i) != KeyOf(id2, j)
  {
    var d1, d2 := NatToString(i), NatToString(j);
    if KeyOf(id1, i) == KeyOf(id2, j) {
      NoDashInDigits(d1);
      NoDashInDigits(d2);
      DashSuffixNoLonger(id1, d1, id2, d2);
      DashSuffixNoLonger(id2, d2, id1, d1);
      var s := KeyOf(id1, i);
      assert d1 == s[|s| - |d1|..] == d2;
      DigitsValueOfNatToString(i);
      DigitsValueOfNatToString(j);
    }
  }

  /** When two strings agree and each ends in `-` followed by a dash-free tail, the tails
      have the same length: the dash before the second tail can only be the one before the
      first. */
  lemma {:induction false} DashSuffixNoLonger(a: string, d1: string, b: string, d2: string)
    requires a + "-" + d1 == b + "-" + d2
    requires forall k :: 0 <= k < |d1| ==> d1[k] != '-'
    ensures |d1| <= |d2|
  {
    var s := a + "-" + d1;
    forall m | |a| < m < |s| ensures s[m] != '-' {
      assert s[m] == d1[m - |a| - 1];
    }
    var t := b + "-" + d2;
    assert t[|b|] == '-';
  }

  lemma {:induction false} NoDashInDigits(d: string)
    requires AllDigits(d)
    ensures forall k :: 0 <= k < |d| ==> d[k] != '-'
  {
    forall k | 0 <= k < |d| ensures d[k] != '-' {
      assert IsDigit(d[k]);
    }
  }

  // ---------------------------------------------------------------------------
  // The default item's emoji as written

  /** The emoji the source writes for the default item: four characters, not the party
      popper. */
  const WrittenDefaultEmoji := "ðŸŽ‰"

  function DefaultItemAsWritten(): TickerItem {
    TickerItem("default", DefaultText, WrittenDefaultEmoji)
  }

  /** The four UTF-8 bytes of a character outside the Basic Multilingual Plane. */
  function Utf8FourBytes(c: char): (bytes: seq<int>)
    requires 0x10000 <= c as int < 0x110000
    ensures |bytes| == 4 && forall k :: 0 <= k < 4 ==> 0 <= bytes[k] < 256
  {
    var n := c as int;
    [0xF0 + n / 0x40000, 0x80 + (n / 0x1000) % 64, 0x80 + (n / 64) % 64, 0x80 + n % 64]
  }

  /** A byte read as a Windows-1252 character (undefined bytes keep their value). */
  function Windows1252(b: int): char
    requires 0 <= b < 256
  {
    match b
    case 0x80 => '€' case 0x82 => '‚' case 0x83 => 'ƒ' case 0x84 => '„'
    case 0x85 => '…' case 0x86 => '†' case 0x87 => '‡' case 0x88 => 'ˆ'
    case 0x89 => '‰' case 0x8A => 'Š' case 0x8B => '‹' case 0x8C => 'Œ'
    case 0x8E => 'Ž' case 0x91 => '‘' case 0x92 => '’' case 0x93 => '“'
    case 0x94 => '”' case 0x95 => '•' case 0x96 => '–' case 0x97 => '—'
    case 0x98 => '˜' case 0x99 => '™' case 0x9A => 'š' case 0x9B => '›'
    case 0x9C => 'œ' case 0x9E => 'ž' case 0x9F => 'Ÿ'
    case _ => b as char
  }

  /** The default emoji as written is the party popper's UTF-8 bytes read as Windows-1252:
      the component shows four stray characters where every other event item shows 🎉. */
  lemma {:induction false} DefaultEmojiIsMojibake()
    ensures |PartyPopper| == 1
    ensures var bytes := Utf8FourBytes(PartyPopper[0]);
      WrittenDefaultEmoji == [Windows1252(bytes[0]), Windows1252(bytes[1]), Windows1252(bytes[2]), Windows1252(bytes[3])]
    ensures DefaultItemAsWritten().emoji != PartyPopper
  {
    assert Utf8FourBytes(PartyPopper[0]) == [0xF0, 0x9F, 0x8E, 0x89];
  }

  /** With the intended emoji, the default item announces events with the same single
      character as the event item. */
  lemma {:induction false} DefaultEmojiMatchesEvents(e: IcsParser.ParsedEvent, cal: LocalCalendar)
    ensures DefaultItem().emoji == EventItem(e, cal).emoji && |DefaultItem().emoji| == 1
  {
  }
}
