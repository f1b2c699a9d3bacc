/** Which reading of the source a member follows where the source has a defect (README,
    "Findings"): `AsWritten` does what the lines say, `Corrected` what they evidently intend.
    The members that contain such a line take an `Edition`, so the job engine as written and the
    corrected one are the same model with a different argument. */
module Editions {
  datatype Edition = AsWritten | Corrected
}
