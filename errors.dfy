/** The ways an operation of the schema-registry manager can end abnormally. */
module Errors {

  datatype Error =
    /** PrestoException(S3_UNSUPPORTED_FORMAT): a `format` property that is not queryable. */
    | UnsupportedFormat(format: string)
    /** PrestoException(CONFIGURATION_INVALID): a location that is not a URI, or a
        properties string that does not parse. */
    | ConfigurationInvalid(detail: string)
    /** PrestoException(INVALID_TABLE_PROPERTY): a stored column type with no catalog type. */
    | InvalidTableProperty(column: string)
    /** NullPointerException: a value the code dereferences was never set. */
    | NullReference(what: string)
    /** org.json JSONException: a member that is absent or of the wrong kind. */
    | MalformedMember(key: string)
    /** javax.ws.rs.ProcessingException: the registry cannot be reached. */
    | RegistryUnreachable
    /** RegistryExceptions.ResourceNotFoundException: no such group or schema. */
    | ResourceNotFound(name: string)
}
