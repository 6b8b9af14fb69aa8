/** The collaborators the services reach through I/O, reduced to what the
    services can observe: NestJS HTTP exceptions, `ConfigService`, the file
    system (`fs/promises`), the verification endpoint (`fetch`) and the mail
    transport (`nodemailer`). Each effectful collaborator is an object whose
    answers are fixed inputs and whose ghost log records every call made. */
module Platform {
  import opened Wrappers

  /** NestJS HTTP exceptions, with the message each was built with. */
  datatype HttpError =
    | NotFound(message: string)
    | Forbidden(message: string)
    | InternalServerError(message: string)

  /** `ConfigService`: string settings from the environment, and the SMTP port
      as the number `Number(...)` yields. */
  datatype Config = Config(settings: map<string, string>, smtpPort: Option<int>) {
    /** `get(key)`: `undefined` when the key is not set. */
    function Get(key: string): Option<string> {
      if key in settings then Some(settings[key]) else None
    }

    /** `get(key, default)`: the default only when the key is not set. */
    function GetOr(key: string, default: string): string {
      Get(key).GetOr(default)
    }
  }

  /** JavaScript truthiness of a string that may be `null` or `undefined`. */
  predicate Truthy(s: Option<string>) {
    s.Some? && s.value != ""
  }

  /** A rejected `fs` promise: an `Error` with an optional `code`. */
  datatype FsError = FsError(code: Option<string>, message: string)

  /** What the file system answers for one path: the outcome of the `R_OK`
      access check, and the outcome of reading the file as UTF-8. */
  datatype FileEntry = FileEntry(accessError: Option<FsError>, contents: Result<string, FsError>)

  datatype FsOp = AccessOp(path: string) | ReadOp(path: string)

  const NoSuchFile: string := "ENOENT"

  /** `access(path, R_OK)`; a path the file system does not hold is ENOENT. */
  function AccessOutcome(entries: map<string, FileEntry>, path: string): Option<FsError> {
    if path in entries then entries[path].accessError
    else Some(FsError(Some(NoSuchFile), "ENOENT: no such file or directory, access '" + path + "'"))
  }

  /** `readFile(path, 'utf8')`; a path the file system does not hold is ENOENT. */
  function ReadOutcome(entries: map<string, FileEntry>, path: string): Result<string, FsError> {
    if path in entries then entries[path].contents
    else Failure(FsError(Some(NoSuchFile), "ENOENT: no such file or directory, open '" + path + "'"))
  }

  class FileSystem {
    const entries: map<string, FileEntry>
    /** Every access check and read, in order. */
    ghost var log: seq<FsOp>

    constructor (entries: map<string, FileEntry>)
      ensures this.entries == entries && log == []
    {
      this.entries := entries;
      log := [];
    }

    method Access(path: string) returns (err: Option<FsError>)
      modifies this
      ensures err == AccessOutcome(entries, path)
      ensures log == old(log) + [AccessOp(path)]
    {
      err := AccessOutcome(entries, path);
      log := log + [AccessOp(path)];
    }

    method ReadFile(path: string) returns (r: Result<string, FsError>)
      modifies this
      ensures r == ReadOutcome(entries, path)
      ensures log == old(log) + [ReadOp(path)]
    {
      r := ReadOutcome(entries, path);
      log := log + [ReadOp(path)];
    }
  }

  /** The JSON body posted to the verification endpoint. */
  datatype Payload = Payload(secret: string, response: string, remoteip: Option<string>)

  datatype VerifyRequest = VerifyRequest(url: string, payload: Payload)

  /** How a verification call ends: `fetch` rejects, `response.json()`
      rejects, or a parsed body whose `success` is truthy or not. */
  datatype ProviderReply = Unreachable | Unparsable | Reply(success: bool)

  class VerificationEndpoint {
    const reply: ProviderReply
    /** Every request posted, in order. */
    ghost var requests: seq<VerifyRequest>

    constructor (reply: ProviderReply)
      ensures this.reply == reply && requests == []
    {
      this.reply := reply;
      requests := [];
    }

    method Post(request: VerifyRequest) returns (r: ProviderReply)
      modifies this
      ensures r == reply
      ensures requests == old(requests) + [request]
    {
      r := reply;
      requests := requests + [request];
    }
  }

  /** The options given to `createTransport`. */
  datatype TransportOptions = TransportOptions(host: string, port: int, secure: bool, user: string, pass: string)

  /** The message given to `sendMail`. */
  datatype MailMessage = MailMessage(from: string, to: string, subject: string, text: string)

  datatype Delivery = Delivery(transport: TransportOptions, message: MailMessage)

  class Mailer {
    /** The error `sendMail` rejects with, if it does. */
    const failure: Option<string>
    /** Every `sendMail` call, in order. */
    ghost var deliveries: seq<Delivery>

    constructor (failure: Option<string>)
      ensures this.failure == failure && deliveries == []
    {
      this.failure := failure;
      deliveries := [];
    }

    method SendMail(transport: TransportOptions, message: MailMessage) returns (r: Outcome<string>)
      modifies this
      ensures r == if failure.Some? then Fail(failure.value) else Pass
      ensures deliveries == old(deliveries) + [Delivery(transport, message)]
    {
      r := if failure.Some? then Fail(failure.value) else Pass;
      deliveries := deliveries + [Delivery(transport, message)];
    }
  }
}
