/** The values that travel between the proxy and the workers. */
module Messages {
  import opened Prelude

  datatype FileContent = FileContent(filename: string, content: seq<byte>)

  datatype ExecuteResult = ExecuteResult(stdout: seq<byte>, stderr: seq<byte>, exitCode: int, files: seq<FileContent>)

  datatype JobSpec = JobSpec(
    callbackURL: string, id: string, binary: seq<byte>, capturePattern: string, args: seq<string>)

  /** A reply: a missing result stands for nil, a missing error for the empty string. */
  datatype Response = Response(result: Option<ExecuteResult>, error: string)

  datatype ReportPayload = ReportPayload(id: string, exec: Response)

  datatype ExecRequest = ExecRequest(
    queueName: string, binary: seq<byte>, capturePattern: string, args: seq<string>)
}
