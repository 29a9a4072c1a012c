/** The static table of supported countries and the lookup of the country
    whose rules currently govern the phone field (app/page.tsx). */
module Countries {
  import opened Optional

  /** One row of the country table: the dialling code that is also the value
      of the country selector, the caption the selector shows, the exact number
      of local digits a complete phone number has, and the input placeholder. */
  datatype Country = Country(code: string, caption: string, maxLength: nat, placeholder: string)

  /** The country table, in the order the selector lists it. */
  const Config: seq<Country> := [
    Country("+91", "IN (+91)", 10, "98765 43210"),
    Country("+1", "US/CA (+1)", 10, "201 555 0123"),
    Country("+44", "UK (+44)", 10, "7700 900077"),
    Country("+61", "AU (+61)", 9, "412 345 678"),
    Country("+971", "UAE (+971)", 9, "50 123 4567"),
    Country("+49", "DE (+49)", 11, "151 23456789"),
    Country("+33", "FR (+33)", 9, "6 12 34 56 78"),
    Country("+81", "JP (+81)", 10, "90 1234 5678")
  ]

  /** The dialling code a fresh form starts with. */
  const DefaultCode: string := "+91"

  /** No two rows share a dialling code. */
  ghost predicate UniqueCodes(cs: seq<Country>) {
    forall i, j | 0 <= i < j < |cs| :: cs[i].code != cs[j].code
  }

  /** Every row demands at least one digit. */
  ghost predicate PositiveLengths(cs: seq<Country>) {
    forall i | 0 <= i < |cs| :: cs[i].maxLength > 0
  }

  /** Some row of `cs` carries dialling code `code`. */
  ghost predicate HasCode(cs: seq<Country>, code: string) {
    exists i | 0 <= i < |cs| :: cs[i].code == code
  }

  /** Index of the first row at or after `from` whose code is `code`, scanning
      in table order as `Array.prototype.find` does. */
  function FindFrom(cs: seq<Country>, code: string, from: nat): (r: Option<nat>)
    requires from <= |cs|
    ensures r.Some? ==> from <= r.value < |cs| && cs[r.value].code == code
    ensures r.Some? ==> forall j | from <= j < r.value :: cs[j].code != code
    ensures r.None? <==> forall j | from <= j < |cs| :: cs[j].code != code
    decreases |cs| - from
  {
    if from == |cs| then None
    else if cs[from].code == code then Some(from)
    else FindFrom(cs, code, from + 1)
  }

  /** The country whose rules apply while the selector holds `code`: the first
      table row with that code, or the first row of the table when none has it. */
  function ActiveCountry(code: string): (c: Country)
    ensures c in Config
    ensures HasCode(Config, code) ==>
      exists i | 0 <= i < |Config| :: Config[i] == c && c.code == code
        && forall j | 0 <= j < i :: Config[j].code != code
    ensures !HasCode(Config, code) ==> c == Config[0]
  {
    match FindFrom(Config, code, 0)
    case Some(i) => Config[i]
    case None => Config[0]
  }

  /** The table is well formed: codes are unique and every length is positive. */
  lemma ConfigWellFormed()
    ensures UniqueCodes(Config)
    ensures PositiveLengths(Config)
    ensures Config[0].code == DefaultCode && Config[0].maxLength == 10
  {
  }

  /** Selecting any row of the table makes exactly that row active. */
  lemma ActiveCountryOfTableCode(i: nat)
    requires i < |Config|
    ensures ActiveCountry(Config[i].code) == Config[i]
  {
  }

  /** Whatever the selector holds, the active country demands at least one digit. */
  lemma ActiveCountryLengthPositive(code: string)
    ensures ActiveCountry(code).maxLength > 0
  {
  }
}
