/**
 * The cell readers shared by the three spreadsheet feeds (`lib/menus/sheetsCsv.ts`,
 * `lib/specials/sheetsSpecialsCsv.ts`, `lib/ticker-csv.ts`), which define them
 * identically. A missing cell is read as the empty string, which every reader treats
 * like a present empty cell.
 */
module CsvFields {
  import opened Wrappers
  import opened Text
  import Lists

  const DefaultOrder: int := 999999
  const TruthyWords: seq<string> := ["true", "1", "yes", "y"]
  const DayTokens: seq<string> := ["mon", "tue", "wed", "thu", "fri", "sat", "sun"]

  /** `s?.trim() || undefined`. */
  function OptTrim(s: string): (r: Option<string>)
    ensures r.None? <==> IsBlank(s)
    ensures r.Some? ==> r.value == Trim(s) != ""
  {
    TrimShape(s);
    if Trim(s) == "" then None else Some(Trim(s))
  }

  /** `parseBoolean` / `parseActive` / `parseSpicy`: the trimmed, lower-cased cell is one of
      `true`, `1`, `yes`, `y`. */
  function ParseBoolean(value: string): (b: bool)
    ensures b <==> Lower(Trim(value)) in TruthyWords
    ensures value == "" ==> !b
  {
    if value == "" then
      assert |Lower(Trim(value))| == 0;
      false
    else Lower(Trim(value)) in TruthyWords
  }

  /** The reading ignores letter case. */
  lemma {:induction false} ParseBooleanIgnoresCase(value: string)
    ensures ParseBoolean(Lower(value)) == ParseBoolean(value)
  {
    TrimLower(value);
    LowerIdempotent(Trim(value));
  }

  /** `parseOrder`: the leading integer of the trimmed cell, or 999999 when the cell is
      empty or does not start with a number. */
  function ParseOrder(value: string): (r: int)
    ensures value == "" ==> r == DefaultOrder
    ensures ParseIntPrefix(Trim(value)).None? ==> r == DefaultOrder
    ensures value != "" && ParseIntPrefix(Trim(value)).Some? ==> r == ParseIntPrefix(Trim(value)).value
  {
    if value == "" then DefaultOrder
    else
      match ParseIntPrefix(Trim(value))
      case None => DefaultOrder
      case Some(n) => n
  }

  /** A written order number reads back as itself. */
  lemma {:induction false} ParseOrderOfNatToString(n: nat)
    ensures ParseOrder(NatToString(n)) == n
  {
    var s := NatToString(n);
    assert !IsWhitespace(s[0]) && !IsWhitespace(s[|s| - 1]);
    TrimUnchanged(s);
    ParseIntOfNatToString(n);
  }

  /** `value.split(',').map(t => t.trim().toLowerCase())`. */
  function NormaliseAll(parts: seq<string>): (r: seq<string>)
    ensures |r| == |parts|
    ensures forall i :: 0 <= i < |parts| ==> r[i] == Lower(Trim(parts[i]))
  {
    if parts == [] then [] else [Lower(Trim(parts[0]))] + NormaliseAll(parts[1..])
  }

  function Tokens(value: string): seq<string> {
    NormaliseAll(Split(value, ','))
  }

  /** The tokens of `value` that belong to `valid`, in their order. */
  function KeepValid(value: string, valid: seq<string>): (r: seq<string>)
    ensures forall i :: 0 <= i < |r| ==> r[i] in valid
    ensures forall t :: t in r <==> t in Tokens(value) && t in valid
  {
    Lists.Filter(Tokens(value), t => t in valid)
  }

  /** `parseDaysOfWeek`: absent for an empty cell, otherwise the valid day tokens (which may
      be none). */
  function ParseDaysOfWeek(value: string): (r: Option<seq<string>>)
    ensures r.None? <==> value == ""
    ensures r.Some? ==> r.value == KeepValid(value, DayTokens)
  {
    if value == "" then None else Some(KeepValid(value, DayTokens))
  }

  /** A token as a writer would produce it: no separator, no surrounding space, no capital. */
  predicate CleanToken(t: string) {
    && ',' !in t
    && (t == [] || (!IsWhitespace(t[0]) && !IsWhitespace(t[|t| - 1])))
    && forall i :: 0 <= i < |t| ==> !('A' <= t[i] <= 'Z') && t[i] != '\U{212A}'
  }

  /** `pad + t` for every `t`. */
  function PadAll(ts: seq<string>, pad: string): (r: seq<string>)
    ensures |r| == |ts|
    ensures forall i :: 0 <= i < |ts| ==> r[i] == pad + ts[i]
  {
    if ts == [] then [] else [pad + ts[0]] + PadAll(ts[1..], pad)
  }

  lemma {:induction false} JoinPadded(ts: seq<string>, pad: string)
    requires |ts| >= 1
    ensures Join(PadAll(ts, pad), ",") == pad + Join(ts, "," + pad)
  {
    if |ts| > 1 {
      JoinPadded(ts[1..], pad);
      assert PadAll(ts, pad)[1..] == PadAll(ts[1..], pad);
      assert Join(PadAll(ts, pad), ",") == (pad + ts[0]) + "," + Join(PadAll(ts[1..], pad), ",");
    }
  }

  lemma {:induction false} JoinParts(ts: seq<string>, pad: string)
    requires |ts| >= 1
    ensures Join([ts[0]] + PadAll(ts[1..], pad), ",") == Join(ts, "," + pad)
  {
    var parts := [ts[0]] + PadAll(ts[1..], pad);
    if |ts| > 1 {
      JoinPadded(ts[1..], pad);
      assert parts[1..] == PadAll(ts[1..], pad);
      calc {
        Join(parts, ",");
        ts[0] + "," + Join(PadAll(ts[1..], pad), ",");
        ts[0] + "," + (pad + Join(ts[1..], "," + pad));
        ts[0] + ("," + pad) + Join(ts[1..], "," + pad);
      }
    }
  }

  /** A padded clean token normalises to itself. */
  lemma {:induction false} NormalisePadded(pad: string, t: string)
    requires IsBlank(pad) && CleanToken(t)
    ensures Lower(Trim(pad + t)) == t
  {
    TrimDropsLeadingSpace(pad, t);
    LowerUnchanged(t);
  }

  /** Reading back tokens written with `tokens.join(',' + pad)`, for blank `pad`, gives the
      tokens. */
  lemma {:induction false} TokensOfJoin(ts: seq<string>, pad: string)
    requires |ts| >= 1 && IsBlank(pad) && ',' !in pad
    requires forall i :: 0 <= i < |ts| ==> CleanToken(ts[i])
    ensures Tokens(Join(ts, "," + pad)) == ts
  {
    var parts := [ts[0]] + PadAll(ts[1..], pad);
    JoinParts(ts, pad);
    forall i | 0 <= i < |parts| ensures ',' !in parts[i] && Lower(Trim(parts[i])) == ts[i] {
      if i == 0 {
        NormalisePadded([], ts[0]);
        assert [] + ts[0] == ts[0];
      } else {
        assert parts[i] == pad + ts[i];
        NormalisePadded(pad, ts[i]);
      }
    }
    SplitJoin(parts, ',');
  }

  /** Valid tokens written with `tokens.join(',' + pad)` are read back unchanged. */
  lemma {:induction false} KeepValidOfJoin(ts: seq<string>, pad: string, valid: seq<string>)
    requires |ts| >= 1 && IsBlank(pad) && ',' !in pad
    requires forall i :: 0 <= i < |ts| ==> CleanToken(ts[i]) && ts[i] in valid
    ensures KeepValid(Join(ts, "," + pad), valid) == ts
  {
    TokensOfJoin(ts, pad);
    Lists.FilterAll(ts, t => t in valid);
  }

  lemma {:induction false} DayTokensClean(d: string)
    requires d in DayTokens
    ensures CleanToken(d) && |d| == 3
  {
  }

  /** A day list written as `days.join(',')` reads back as the same list. */
  lemma {:induction false} ParseDaysOfWeekOfJoin(days: seq<string>)
    requires |days| >= 1
    requires forall i :: 0 <= i < |days| ==> days[i] in DayTokens
    ensures ParseDaysOfWeek(Join(days, ",")) == Some(days)
  {
    forall i | 0 <= i < |days| ensures CleanToken(days[i]) {
      DayTokensClean(days[i]);
    }
    KeepValidOfJoin(days, "", DayTokens);
    assert "," + "" == ",";
    DayTokensClean(days[0]);
    if |days| > 1 {
      assert Join(days, ",") == days[0] + "," + Join(days[1..], ",");
    }
    assert Join(days, ",")[0] == days[0][0];
  }
}
