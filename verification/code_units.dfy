/** Text as the string helpers see it: a sequence of UTF-16 code units,
    each read by its numeric value (surrogates are never paired). */
module CodeUnits {

  /** One UTF-16 code unit, the value `charCodeAt` returns. */
  type CodeUnit = c: int | 0 <= c < 0x1_0000

  type Text = seq<CodeUnit>
}
