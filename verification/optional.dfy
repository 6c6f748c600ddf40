/** The optional reading a temperature source hands to the control loop. */
module Optional {

  /** `None` means no new reading is available yet. */
  datatype Option<+T> = None | Some(value: T)
}
