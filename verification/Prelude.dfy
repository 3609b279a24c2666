/** Small types shared by the models. */
module Prelude {

  datatype Option<+T> = None | Some(value: T)

}
