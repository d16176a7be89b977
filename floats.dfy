/** Floating-point text, which this model does not interpret: `f64`
    values are taken as real numbers, and the two conversions the driver
    uses are supplied as function values. */
module Floats {
  import opened Outcomes

  /** `parse` is `f64::from_str` (None on a syntax error);
      `fixed2` is `format!("{:.*}", 2, x)`. */
  datatype FloatText = FloatText(parse: string -> Option<real>, fixed2: real -> string)
}
