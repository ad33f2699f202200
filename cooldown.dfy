/**
 * The cooldown middleware of the quote sync: a request is handed on unless
 * the last recorded sync is less than ten minutes old, in which case it is
 * answered with 429 and the whole seconds still to wait.
 */
module Cooldown {
  import opened Wrappers
  import opened Http
  import opened JsNumber

  const CooldownPeriodMs: int := 10 * 60 * 1000

  /** `Math.ceil(x / d)` for an integer `x` and a positive `d`. */
  function CeilDiv(x: int, d: int): (q: int)
    requires d > 0
    ensures (q - 1) * d < x <= q * d
  {
    -((-x) / d)
  }

  /** The decimal digits of a natural number, as a template literal prints it. */
  function DecimalText(n: nat): (s: string)
    ensures |s| > 0 && AllDigits(s)
    ensures n >= 10 ==> s[0] != '0'
  {
    if n < 10 then [('0' as int + n) as char]
    else DecimalText(n / 10) + [('0' as int + n % 10) as char]
  }

  /** Printing a count and reading the digits back gives the count. */
  lemma {:induction false} DecimalTextValue(n: nat)
    ensures DigitsValue(DecimalText(n)) == n
  {
    var s := DecimalText(n);
    if n >= 10 {
      DecimalTextValue(n / 10);
      assert s[..|s| - 1] == DecimalText(n / 10);
    }
  }

  /** The decision on one request, from the stored `syncDate` (ms) and the current time (ms). */
  datatype GateDecision = Pass | Wait(secondsLeft: int)

  function Decide(syncDate: Option<int>, now: int): (g: GateDecision)
    ensures g.Pass? <==> syncDate.None? || now - syncDate.value >= CooldownPeriodMs
    ensures g.Wait? ==> g.secondsLeft >= 1
    ensures g.Wait? && now >= syncDate.value ==> g.secondsLeft <= CooldownPeriodMs / 1000
    ensures g.Wait? ==>
      (g.secondsLeft - 1) * 1000 < syncDate.value + CooldownPeriodMs - now <= g.secondsLeft * 1000
  {
    if syncDate.Some? && now - syncDate.value < CooldownPeriodMs then
      Wait(CeilDiv(syncDate.value + CooldownPeriodMs - now, 1000))
    else
      Pass
  }

  const WaitPrefix := "Este endpoint está en enfriamiento. Inténtalo de nuevo en "
  const WaitSuffix := " segundos."

  /** The 429 text: the seconds, printed in decimal between the fixed prefix and suffix, read back as the count. */
  function WaitMessage(seconds: nat): (m: string)
    ensures |m| > |WaitPrefix| + |WaitSuffix|
    ensures m[..|WaitPrefix|] == WaitPrefix && m[|m| - |WaitSuffix|..] == WaitSuffix
    ensures AllDigits(m[|WaitPrefix|..|m| - |WaitSuffix|])
    ensures DigitsValue(m[|WaitPrefix|..|m| - |WaitSuffix|]) == seconds
  {
    var digits := DecimalText(seconds);
    DecimalTextValue(seconds);
    var m := WaitPrefix + digits + WaitSuffix;
    assert m[|WaitPrefix|..|m| - |WaitSuffix|] == digits;
    m
  }

  /**
   * `dolargCooldown`: None means `next()` is called; otherwise the 429
   * response, whose text names the seconds left.
   */
  function DolargCooldown(syncDate: Option<int>, now: int): (r: Option<Response>)
    ensures r.None? <==> Decide(syncDate, now).Pass?
    ensures r.Some? ==> r.value == Response(429, WaitMessage(Decide(syncDate, now).secondsLeft))
  {
    match Decide(syncDate, now)
    case Pass => None
    case Wait(seconds) => Some(Response(429, WaitMessage(seconds)))
  }

  /** Five minutes after a sync, five minutes (300 s) are left; at exactly ten minutes the request passes. */
  lemma CooldownTimeline(t: int)
    ensures Decide(Some(t), t + 300000) == Wait(300)
    ensures Decide(Some(t), t + 599001) == Wait(1)
    ensures Decide(Some(t), t + 600000) == Pass
    ensures Decide(Some(t), t + 600001) == Pass
    ensures Decide(None, t) == Pass
  {
  }
}
