/** A possibly absent value: the kernel's NULL pointers and "not found" answers. */
module Optional {
  datatype Option<+T> = None | Some(value: T)
}
