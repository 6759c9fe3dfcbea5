// Datatypes and arithmetic shared by the other modules.
module Prelude {
  datatype Option<+T> = None | Some(value: T)

  datatype Result<+T, +E> = Ok(value: T) | Err(error: E)

  lemma MulSign(a: int, b: int)
    requires a >= 0 && b >= 0
    ensures a * b >= 0
  {
  }

  lemma MulStep(q: int, b: int, width: int)
    requires width > 0
    ensures q < b ==> q * width + width <= b * width
    ensures q >= b ==> q * width >= b * width
  {
    if q < b {
      MulSign(b - q - 1, width);
      assert (b - q - 1) * width == b * width - q * width - width;
    } else {
      MulSign(q - b, width);
      assert (q - b) * width == q * width - b * width;
    }
  }
}
