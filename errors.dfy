/** The error kinds of the crate's `DbError`, each carrying its message. */
module Errors {

  datatype DbError =
    | DbError(msg: string)
    | DbUrlError(msg: string)
    | SerializationError(msg: string)
    | QueryBuildError(msg: string)
    | DataConversionError(msg: string)
    | MapperLoadError(msg: string)
    | DriverError(msg: string)
    | TemplateEngineError(msg: string)
    | SqlExecutionError(msg: string)
    | TypeMismatch(msg: string)
    | MissingField(msg: string)
    | Custom(msg: string)
    /** The kind the value serializer raises; the error enum itself does not declare it. */
    | ValueError(msg: string)
}
