/** The results shared by the models. */
module Values {
  datatype Option<T> = None | Some(value: T)

  datatype Result<T> = Ok(value: T) | Err

  /** A repository of a signed manifest, as far as the client's configuration is concerned. */
  datatype Repository = Repository(name: string, packageBaseURL: string)
}
