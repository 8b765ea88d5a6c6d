/**
 * The two-level comparators the site sorts with: a number first (an order column),
 * then a text compared with `localeCompare`. `KeyThenText(ka, ta, kb, tb)` holds when the
 * comparator `(a, b) => a.k !== b.k ? a.k - b.k : a.t.localeCompare(b.t)` is `<= 0`.
 */
module Compare {
  import opened Text

  predicate KeyThenText(ka: int, ta: string, kb: int, tb: string) {
    ka < kb || (ka == kb && LocaleCompare(ta, tb) <= 0)
  }

  lemma {:induction false} KeyThenTextTotal(ka: int, ta: string, kb: int, tb: string)
    ensures KeyThenText(ka, ta, kb, tb) || KeyThenText(kb, tb, ka, ta)
  {
    StrLtTrichotomy(ta, tb);
  }

  lemma {:induction false} KeyThenTextTransitive(ka: int, ta: string, kb: int, tb: string, kc: int, tc: string)
    requires KeyThenText(ka, ta, kb, tb) && KeyThenText(kb, tb, kc, tc)
    ensures KeyThenText(ka, ta, kc, tc)
  {
    if ka == kb == kc && ta != tb && tb != tc {
      StrLtTransitive(ta, tb, tc);
    }
  }
}
