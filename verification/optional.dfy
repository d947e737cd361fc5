/** The optional value used for the draft's identifier and the edit target:
    a value the component's JavaScript keeps as `null` or an absent property
    is `None` here. */
module Optional {

  datatype Option<+T> = None | Some(value: T)
}
