/**
  Optional values. Every parser in the model answers with one: Some value
  when the text has the shape the parser reads, None when it does not.
 */
module Options {
  datatype Option<+T> = None | Some(value: T)
}
