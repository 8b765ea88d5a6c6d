/**
 * The online-ordering settings of `lib/siteConfig.ts`: the ordering URL, the order mode
 * and the label of the order button, all read from environment variables. The variables
 * are parameters here (`None` for an unset variable).
 */
module SiteOrdering {
  import opened Wrappers
  import opened Text

  /** `OAKS_ORDER_ONLINE_URL`, `OAKS_ORDER_MODE` and `OAKS_ORDER_LABEL`. */
  datatype Environment = Environment(orderOnlineUrl: Option<string>, orderMode: Option<string>, orderLabel: Option<string>)

  /** `siteConfig`. The mode is kept as the string it was read as: the cast to `OrderMode`
      checks nothing. */
  datatype OrderingConfig = OrderingConfig(orderOnlineUrl: string, orderMode: string, orderLabel: string)

  /** `value?.trim() || fallback`. */
  function TrimmedOr(value: Option<string>, fallback: string): (r: string)
    ensures value.Some? && !IsBlank(value.value) ==> r == Trim(value.value)
    ensures (value.None? || IsBlank(value.value)) ==> r == fallback
  {
    if value.Some? then TrimShape(value.value); (if Trim(value.value) != "" then Trim(value.value) else fallback)
    else fallback
  }

  function OrderOnlineUrl(env: Environment): string {
    TrimmedOr(env.orderOnlineUrl, "")
  }

  function OrderMode(env: Environment): string {
    TrimmedOr(env.orderMode, "pickup")
  }

  /** `getDefaultOrderLabel`: a non-blank custom label, trimmed; otherwise the label of the
      mode, `Order Pickup` for any mode other than `delivery` and `both`. */
  function GetDefaultOrderLabel(env: Environment): string {
    if env.orderLabel.Some? && Trim(env.orderLabel.value) != "" then Trim(env.orderLabel.value)
    else
      var mode := OrderMode(env);
      if mode == "delivery" then "Order Delivery"
      else if mode == "both" then "Order Online"
      else "Order Pickup"
  }

  function SiteConfig(env: Environment): OrderingConfig {
    OrderingConfig(OrderOnlineUrl(env), OrderMode(env), GetDefaultOrderLabel(env))
  }

  /** `hasOrdering`: `Boolean(orderOnlineUrl)`. */
  function HasOrdering(env: Environment): bool {
    SiteConfig(env).orderOnlineUrl != ""
  }

  /** `getOrderLabel`: the label stored in the configuration. */
  function GetOrderLabel(env: Environment): string {
    SiteConfig(env).orderLabel
  }

  // ---------------------------------------------------------------------------
  // Properties

  /** Ordering is on exactly when the URL variable is set to something other than white
      space, and the URL then carries no white space at either end. */
  lemma {:induction false} HasOrderingIff(env: Environment)
    ensures HasOrdering(env) <==> env.orderOnlineUrl.Some? && !IsBlank(env.orderOnlineUrl.value)
    ensures HasOrdering(env) ==> Trim(OrderOnlineUrl(env)) == OrderOnlineUrl(env)
  {
    if env.orderOnlineUrl.Some? {
      TrimShape(env.orderOnlineUrl.value);
      TrimUnchanged(Trim(env.orderOnlineUrl.value));
    }
  }

  /** A non-blank custom label wins, trimmed, whatever the mode. */
  lemma {:induction false} CustomLabelWins(env: Environment)
    requires env.orderLabel.Some? && !IsBlank(env.orderLabel.value)
    ensures GetOrderLabel(env) == Trim(env.orderLabel.value)
  {
    TrimShape(env.orderLabel.value);
  }

  /** Without a custom label the label follows the trimmed mode: `delivery` and `both` have
      their own labels, and every other mode, an unset one included, orders pickup. */
  lemma {:induction false} ModeLabels(env: Environment)
    requires env.orderLabel.None? || IsBlank(env.orderLabel.value)
    ensures OrderMode(env) == "delivery" ==> GetOrderLabel(env) == "Order Delivery"
    ensures OrderMode(env) == "both" ==> GetOrderLabel(env) == "Order Online"
    ensures OrderMode(env) != "delivery" && OrderMode(env) != "both" ==> GetOrderLabel(env) == "Order Pickup"
    ensures env.orderMode.None? ==> GetOrderLabel(env) == "Order Pickup"
  {
    if env.orderLabel.Some? {
      TrimShape(env.orderLabel.value);
    }
  }

  /** The button always has a label: it is never empty and never padded with white space. */
  lemma {:induction false} LabelNeverBlank(env: Environment)
    ensures GetOrderLabel(env) != "" && Trim(GetOrderLabel(env)) == GetOrderLabel(env)
  {
    var shown := GetOrderLabel(env);
    if env.orderLabel.Some? && Trim(env.orderLabel.value) != "" {
      TrimShape(env.orderLabel.value);
      TrimUnchanged(shown);
    } else {
      TrimUnchanged(shown);
    }
  }

  /** The mode is compared as written: a capitalised mode is not recognised. */
  lemma {:induction false} ModeIsCaseSensitive()
    ensures GetOrderLabel(Environment(None, Some("Delivery"), None)) == "Order Pickup"
  {
    var env := Environment(None, Some("Delivery"), None);
    TrimUnchanged("Delivery");
    assert OrderMode(env) == "Delivery";
  }
}
