/** Optional values and fallible results, as used throughout the model. */
module Wrappers {

  datatype Option<+T> = None | Some(value: T)

  datatype Result<+T, +E> = Ok(value: T) | Err(error: E)

  /** The error kinds of the viewer (src/error.rs), with the two kinds that
      config.rs and toml.rs raise but error.rs does not declare. */
  datatype XtvError =
    | JsonParse(message: string)
    | YamlParse(message: string)
    | TomlParse(message: string)
    | XmlParse(message: string)
    | LdifParse(line: nat, message: string)
    | UnsupportedFormat(message: string)
    | Config(message: string)
    | Io(message: string)
}
