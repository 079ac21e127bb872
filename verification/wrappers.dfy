/** The optional value used wherever the application either gets a result or an exception
    that its caller catches (an IndexError from `df.iloc`, a failed remote call). */
module Wrappers {

  datatype Option<+T> = None | Some(value: T)
}
