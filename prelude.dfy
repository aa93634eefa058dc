/** Failure-carrying datatypes shared by every module of the model.
    Python signals failure by raising; the model returns `Err(e)` with the
    exception the source raises at that point. */
module Prelude {

  datatype Option<+T> = None | Some(value: T)

  /** The exceptions the modelled code raises, one constructor per raise site
      kind (the Python exception class is given in the comment). */
  datatype Error =
    | UnknownField          // KeyError from the mapping table lookup
    | MissingKey            // KeyError from indexing a dict
    | IndexOutOfRange       // IndexError from indexing a list
    | NotSubscriptable      // TypeError: indexing a scalar, or a list by a non-int
    | NotMember             // ValueError from list.index on a non-member
    | RecursionLimit        // RecursionError from re-entrant activation
    | NameTooLong           // ValueError("Name must be 16 characters or fewer.")
    | InvalidLedColor       // ValueError("Invalid LED color value.")
    | InvalidTypeName       // ValueError("... is not a valid FileType name")
    | UnsupportedKind       // Exception("... only supported for bundle, setlist, or preset.")
    | UnsupportedFileType   // Exception("Unsupported file type: ...")
    | PathNotSpecified      // Exception("File path must be specified.")
    | NotABundlePath        // Exception("File type must be a bundle." / "File path must be a bundle or None ...")
    | TooManyItems          // Exception("Number of items to import exceeds maximum ...")
    | PathNotProvided       // Exception("File path not provided.")
    | FileMissing           // Exception("File does not exist.")
    | NotAFile              // Exception("File is not a file.")
    | NotReadable           // Exception("File is not readable.")
    | BadExtension          // Exception("File extension is not valid for bundle, setlist, or preset.")
    | DirectoryMissing      // Exception("Directory does not exist:", ...)
    | DirectoryNotWritable  // Exception("Directory is not writable:", ...)
    | IsADirectory          // IsADirectoryError from open(path, 'w')
    | FileNotWritable       // PermissionError from open(path, 'w') on a read-only file
    | DecodeFailed          // JSONDecodeError, binascii.Error or zlib.error while reading
    | NotSerializable       // TypeError from json.dumps on a non-JSON value
    | NotAString            // TypeError from re.sub / base64 on a non-string value
    | AttributeMissing      // AttributeError from a reference to a missing attribute
    | NotDisplayable        // str() of a container value, which the model does not render
    | NotAnIndex            // TypeError from a list subscript that is not an integer

  datatype Result<+T> = Ok(value: T) | Err(error: Error) {
    predicate IsFailure() { Err? }
    function PropagateFailure<U>(): Result<U> requires Err? { Err(error) }
    function Extract(): T requires Ok? { value }
  }

  datatype Outcome = Pass | Fail(error: Error) {
    predicate IsFailure() { Fail? }
    function PropagateFailure<U>(): Result<U> requires Fail? { Err(error) }
  }
}
