/** The records the chat pipeline passes around (the declarations of
    src/lib/types.ts), and the Option/Result wrappers used for absent fields
    and failures. */
module Types {

  datatype Option<+T> = None | Some(value: T)

  datatype Result<+R, +E> = Success(value: R) | Failure(error: E)

  /** Who wrote a turn; `System` carries command output. */
  datatype Role = User | Assistant | System

  /** A chat turn (`ChatMessage`). The timestamp is not modelled. */
  datatype Message = Message(
    id: string,
    role: Role,
    content: string,
    model: Option<string>)

  /** An uploaded file (`ProjectFile`). The timestamp is not modelled. */
  datatype ProjectFile = ProjectFile(
    id: string,
    name: string,
    content: string,
    mimeType: string,
    size: nat)

  /** The fields of a decoded stream line (`OllamaResponse`) that the reader looks at;
      `response` and `error` are absent when the line does not carry them. */
  datatype StreamRecord = StreamRecord(
    response: Option<string>,
    done: bool,
    error: Option<string>)
}
