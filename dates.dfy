/**
 * The date normalisers of the filters. A date that is already written as
 * YYYY-MM-DD is kept as it is; any other value goes through `new Date(...)`,
 * which the model takes as a parameter (`parse`), since calendar arithmetic and
 * time zones are not modelled.
 */
module Dates {
  import opened Text
  import opened JsValues

  /** `/^\d{4}-\d{2}-\d{2}$/.test(s)`: exactly ten characters, ASCII digits around two dashes. */
  predicate IsIsoDate(s: string)
  {
    |s| == 10
    && IsDigit(s[0]) && IsDigit(s[1]) && IsDigit(s[2]) && IsDigit(s[3]) && s[4] == '-'
    && IsDigit(s[5]) && IsDigit(s[6]) && s[7] == '-' && IsDigit(s[8]) && IsDigit(s[9])
  }

  /**
   * `normalizeDateForComparison` of the filter hook and of the bookings page:
   * '' for a falsy value, the value itself when it is a YYYY-MM-DD string,
   * otherwise the formatted parse, or '' when the parse is an invalid date
   * (`parse` answers `None`).
   */
  function NormalizeForComparison(v: Value, parse: Value -> Option<string>): (r: string)
  {
    if !Truthy(v) then ""
    else if v.Str? && IsIsoDate(v.s) then v.s
    else match parse(v)
      case None => ""
      case Some(formatted) => formatted
  }

  /** The three branches of `normalizeDateForComparison`, each stated on its own. */
  lemma NormalizeCases(v: Value, parse: Value -> Option<string>)
    ensures !Truthy(v) ==> NormalizeForComparison(v, parse) == ""
    ensures v.Str? && IsIsoDate(v.s) ==> NormalizeForComparison(v, parse) == v.s
    ensures Truthy(v) && !(v.Str? && IsIsoDate(v.s)) && parse(v) == None ==> NormalizeForComparison(v, parse) == ""
  {
  }

  /** A parse whose every valid answer is written as YYYY-MM-DD, as the formatting branch writes it for four-digit years. */
  ghost predicate FormatsIso(parse: Value -> Option<string>)
  {
    forall v :: parse(v).Some? ==> IsIsoDate(parse(v).value)
  }

  /**
   * With such a parse, the normaliser yields '' or a YYYY-MM-DD string, and
   * normalising its own result again changes nothing.
   */
  lemma NormalizeIdempotent(v: Value, parse: Value -> Option<string>)
    requires FormatsIso(parse)
    ensures var r := NormalizeForComparison(v, parse);
      (r == "" || IsIsoDate(r)) && NormalizeForComparison(Str(r), parse) == r
  {
    var r := NormalizeForComparison(v, parse);
    if r != "" {
      if !Truthy(v) {
      } else if v.Str? && IsIsoDate(v.s) {
      } else {
        assert parse(v).Some?;
      }
    }
  }

  /**
   * `normalizeDate` of the schedule filter: a YYYY-MM-DD string is returned as
   * it is, anything else goes to the parse without a falsy or validity check.
   */
  function NormalizeDate(v: Value, parse: Value -> string): (r: string)
    ensures v.Str? && IsIsoDate(v.s) ==> r == v.s
  {
    if v.Str? && IsIsoDate(v.s) then v.s else parse(v)
  }

  /** On YYYY-MM-DD strings the two normalisers agree, whatever the parses. */
  lemma NormalizersAgreeOnIsoDates(s: string, parse: Value -> Option<string>, format: Value -> string)
    requires IsIsoDate(s)
    ensures NormalizeDate(Str(s), format) == NormalizeForComparison(Str(s), parse) == s
  {
  }
}
