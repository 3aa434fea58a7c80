/**
 The style-code table: `gameFactory` turns the style code a client sends into one of
 twelve fixed engine configurations, or into an error for an unknown code.
 */
module Styles {
  import opened Games
  import opened Outcomes

  /** The twelve styles the factory knows, in the order of its switch. */
  datatype Style =
    | Gs301 | Gs301DO | Gs501 | Gs501DO
    | GsHigh3 | GsHigh5
    | GsCountup300 | GsCountup500 | GsCountup900
    | GsCricket | GsCricketCutThroat | GsCricketNoScore

  /** The configuration each style constructs. */
  function ConfigOf(s: Style): Config
  {
    match s
    case Gs301 => X01(301, false)
    case Gs301DO => X01(301, true)
    case Gs501 => X01(501, false)
    case Gs501DO => X01(501, true)
    case GsHigh3 => Highest(3)
    case GsHigh5 => Highest(5)
    case GsCountup300 => CountUp(300)
    case GsCountup500 => CountUp(500)
    case GsCountup900 => CountUp(900)
    case GsCricket => Cricket(false, false)
    case GsCricketCutThroat => Cricket(true, false)
    case GsCricketNoScore => Cricket(false, true)
  }

  /** The style codes are defined outside the server; `codeOf` gives the code string of
      each style. Distinct styles are expected to have distinct codes. */
  ghost predicate DistinctCodes(codeOf: Style -> string)
  {
    forall s, t :: s != t ==> codeOf(s) != codeOf(t)
  }

  /** The message of the error returned for an unknown style. */
  function UnsupportedStyle(style: string): string
  {
    "game of type " + style + " is not yet supported"
  }

  /** `gameFactory`: the first style, in switch order, whose code equals `style` selects
      its configuration; no match is an error. */
  function GameFactory(codeOf: Style -> string, style: string): (r: Result<Config>)
    ensures r.Ok? ==> exists s :: codeOf(s) == style && r.value == ConfigOf(s)
    ensures r.Err? ==> (forall s :: codeOf(s) != style) && r.error == UnsupportedStyle(style)
  {
    if style == codeOf(Gs301) then Ok(ConfigOf(Gs301))
    else if style == codeOf(Gs301DO) then Ok(ConfigOf(Gs301DO))
    else if style == codeOf(Gs501) then Ok(ConfigOf(Gs501))
    else if style == codeOf(Gs501DO) then Ok(ConfigOf(Gs501DO))
    else if style == codeOf(GsHigh3) then Ok(ConfigOf(GsHigh3))
    else if style == codeOf(GsHigh5) then Ok(ConfigOf(GsHigh5))
    else if style == codeOf(GsCountup300) then Ok(ConfigOf(GsCountup300))
    else if style == codeOf(GsCountup500) then Ok(ConfigOf(GsCountup500))
    else if style == codeOf(GsCountup900) then Ok(ConfigOf(GsCountup900))
    else if style == codeOf(GsCricket) then Ok(ConfigOf(GsCricket))
    else if style == codeOf(GsCricketCutThroat) then Ok(ConfigOf(GsCricketCutThroat))
    else if style == codeOf(GsCricketNoScore) then Ok(ConfigOf(GsCricketNoScore))
    else
      UnlistedCode(codeOf, style);
      Err(UnsupportedStyle(style))
  }

  /** A string that differs from the code of each of the twelve styles is no style's code. */
  lemma UnlistedCode(codeOf: Style -> string, style: string)
    requires style != codeOf(Gs301) && style != codeOf(Gs301DO)
    requires style != codeOf(Gs501) && style != codeOf(Gs501DO)
    requires style != codeOf(GsHigh3) && style != codeOf(GsHigh5)
    requires style != codeOf(GsCountup300) && style != codeOf(GsCountup500) && style != codeOf(GsCountup900)
    requires style != codeOf(GsCricket) && style != codeOf(GsCricketCutThroat) && style != codeOf(GsCricketNoScore)
    ensures forall s :: codeOf(s) != style
  {
    forall s ensures codeOf(s) != style {
      match s
      case Gs301 => case Gs301DO => case Gs501 => case Gs501DO =>
      case GsHigh3 => case GsHigh5 =>
      case GsCountup300 => case GsCountup500 => case GsCountup900 =>
      case GsCricket => case GsCricketCutThroat => case GsCricketNoScore =>
    }
  }

  /** With distinct codes, the factory decodes every style's code to that style's
      configuration. */
  lemma FactoryDecodesEveryCode(codeOf: Style -> string, s: Style)
    requires DistinctCodes(codeOf)
    ensures GameFactory(codeOf, codeOf(s)) == Ok(ConfigOf(s))
  {
    var r := GameFactory(codeOf, codeOf(s));
    var t :| codeOf(t) == codeOf(s) && r.value == ConfigOf(t);
    assert t == s;
  }

  /** Each style has a configuration of its own: no two styles construct the same engine. */
  lemma ConfigsAreDistinct(s: Style, t: Style)
    ensures ConfigOf(s) == ConfigOf(t) ==> s == t
  {
  }

  /** The factory succeeds exactly on the twelve codes. */
  lemma FactoryAcceptsExactlyTheCodes(codeOf: Style -> string, style: string)
    ensures GameFactory(codeOf, style).Ok? <==> exists s :: codeOf(s) == style
  {
  }
}
