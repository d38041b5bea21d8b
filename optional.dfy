/** An optional value: `None` stands for a null pointer or an absent entry. */
module Optional {

  datatype Option<T> = None | Some(value: T)
}
