/** `CaptchaService`: fail-closed Turnstile verification. The outcome of
    each run is a function of the configuration, the file system, the request
    and the provider's reply; the service methods perform the same steps
    against the collaborators and are proved to agree with it. */
module Captcha {
  import opened Wrappers
  import opened Platform
  import FileReader
  import StringUtils

  const SecretKeyFileSetting: string := "CLOUDFLARE_TURNSTILE_SECRET_KEY_FILE"
  const VerifyUrlSetting: string := "CLOUDFLARE_TURNSTILE_VERIFY_URL"
  const DefaultVerifyUrl: string := "https://challenges.cloudflare.com/turnstile/v0/siteverify"
  const SecretKeyFileMissing: string :=
    "CLOUDFLARE_TURNSTILE_SECRET_KEY_FILE is not configured in environment variables"

  /** `VerifyCaptchaDto`. */
  datatype VerifyCaptchaDto = VerifyCaptchaDto(token: string, remoteIp: Option<string>)

  /** What `getSecretKey` resolves to. */
  datatype SecretKey = SecretKey(secretKey: Option<string>, verificatorUrl: string)

  /** A run of `verify`: the verdict and the request posted, if one was. */
  datatype CaptchaRun = CaptchaRun(verdict: bool, request: Option<VerifyRequest>)

  /** `getSecretKey()`: the secret read from the configured file, and the
      endpoint URL (Cloudflare's siteverify unless configured). A missing path
      setting and every reader failure end in an internal error. */
  function SecretKeyResult(config: Config, entries: map<string, FileEntry>): (r: Result<SecretKey, HttpError>)
    ensures !Truthy(config.Get(SecretKeyFileSetting)) ==> r == Failure(InternalServerError(SecretKeyFileMissing))
    ensures r.Failure? ==> r.error.InternalServerError?
    ensures r.Success? ==>
              && Truthy(config.Get(SecretKeyFileSetting))
              && r.value.verificatorUrl == (if VerifyUrlSetting in config.settings then config.settings[VerifyUrlSetting]
                                            else DefaultVerifyUrl)
              && r.value.secretKey.Some?
              && FileReader.ReadFileResult(entries, config.Get(SecretKeyFileSetting).value) == Success(r.value.secretKey)
    ensures var file := config.Get(SecretKeyFileSetting);
            Truthy(file) && FileReader.ReadFileResult(entries, file.value).Success? ==>
              r == Success(SecretKey(FileReader.ReadFileResult(entries, file.value).value,
                                     config.GetOr(VerifyUrlSetting, DefaultVerifyUrl)))
    ensures var file := config.Get(SecretKeyFileSetting);
            Truthy(file) && FileReader.ReadFileResult(entries, file.value).Failure? ==>
              r == Failure(InternalServerError(FileReader.ReadFileResult(entries, file.value).error.message))
  {
    var file := config.Get(SecretKeyFileSetting);
    var url := config.GetOr(VerifyUrlSetting, DefaultVerifyUrl);
    if !Truthy(file) then Failure(InternalServerError(SecretKeyFileMissing))
    else
      match FileReader.ReadFileResult(entries, file.value)
      case Failure(e) => Failure(InternalServerError(e.message))
      case Success(key) => Success(SecretKey(key, url))
  }

  /** The secret check passes: the key resolves and is a non-empty string. */
  predicate SecretAvailable(config: Config, entries: map<string, FileEntry>) {
    var k := SecretKeyResult(config, entries);
    k.Success? && Truthy(k.value.secretKey)
  }

  /** The request body: `secret`, `response` = the token, and `remoteip` only
      when the remote IP is a non-empty string. */
  function BuildPayload(secret: string, dto: VerifyCaptchaDto): (p: Payload)
    ensures p.secret == secret && p.response == dto.token
    ensures p.remoteip.Some? <==> Truthy(dto.remoteIp)
    ensures p.remoteip.Some? ==> p.remoteip == dto.remoteIp
  {
    Payload(secret, dto.token, if Truthy(dto.remoteIp) then dto.remoteIp else None)
  }

  /** `verify(dto)`. It never throws: a configuration fault or a reader error
      gives `false`. The secret is checked before the token, and neither
      failing check reaches the network. `true` needs a secret, a token and
      a reply whose `success` is truthy. */
  function VerifyRun(config: Config, entries: map<string, FileEntry>, dto: VerifyCaptchaDto, reply: ProviderReply): (r: CaptchaRun)
    ensures r.verdict <==> SecretAvailable(config, entries) && dto.token != "" && reply == Reply(true)
    ensures r.request.Some? <==> SecretAvailable(config, entries) && dto.token != ""
    ensures r.request.Some? ==>
              var k := SecretKeyResult(config, entries).value;
              r.request.value == VerifyRequest(k.verificatorUrl, BuildPayload(k.secretKey.value, dto))
  {
    match SecretKeyResult(config, entries)
    case Failure(_) => CaptchaRun(false, None)
    case Success(k) =>
      if !Truthy(k.secretKey) then CaptchaRun(false, None)
      else if dto.token == "" then CaptchaRun(false, None)
      else
        var request := VerifyRequest(k.verificatorUrl, BuildPayload(k.secretKey.value, dto));
        CaptchaRun(reply == Reply(true), Some(request))
  }

  /** A missing secret-path setting makes `verify` answer `false` without any
      file access or request. */
  lemma MissingSecretPathIsFalse(config: Config, entries: map<string, FileEntry>, dto: VerifyCaptchaDto, reply: ProviderReply)
    requires !Truthy(config.Get(SecretKeyFileSetting))
    ensures VerifyRun(config, entries, dto, reply) == CaptchaRun(false, None)
    ensures SecretKeyOps(config, entries) == []
  {
  }

  /** The file-system calls `getSecretKey` makes. */
  ghost function SecretKeyOps(config: Config, entries: map<string, FileEntry>): seq<FsOp> {
    var file := config.Get(SecretKeyFileSetting);
    if Truthy(file) then FileReader.ReadFileOps(entries, file.value) else []
  }

  /** The token as logged: `truncate(token, {maxLength: 20})`, at most 23
      characters. */
  function TokenLogView(token: string): (r: string)
    ensures |r| <= 23
    ensures |token| <= 20 ==> r == token
  {
    StringUtils.Truncate(Some(token), Some(StringUtils.TruncateOptions(Some(20), None)))
  }

  class CaptchaService {
    const config: Config
    const fileReader: FileReader.FileReaderService
    const endpoint: VerificationEndpoint

    constructor (config: Config, fileReader: FileReader.FileReaderService, endpoint: VerificationEndpoint)
      ensures this.config == config && this.fileReader == fileReader && this.endpoint == endpoint
    {
      this.config := config;
      this.fileReader := fileReader;
      this.endpoint := endpoint;
    }

    method Verify(dto: VerifyCaptchaDto) returns (ok: bool)
      modifies fileReader.fs, endpoint
      ensures var run := VerifyRun(config, fileReader.fs.entries, dto, endpoint.reply);
              && ok == run.verdict
              && endpoint.requests == old(endpoint.requests) + run.request.ToSeq()
      ensures fileReader.fs.log == old(fileReader.fs.log) + SecretKeyOps(config, fileReader.fs.entries)
    {
      var key := GetSecretKey();
      if key.Failure? {
        return false;
      }
      var secretKey, verificatorUrl := key.value.secretKey, key.value.verificatorUrl;
      if !Truthy(secretKey) {
        return false;
      }
      if dto.token == "" {
        return false;
      }
      var payload := BuildPayload(secretKey.value, dto);
      var reply := endpoint.Post(VerifyRequest(verificatorUrl, payload));
      ok := reply == Reply(true);
    }

    /** `verifyToken(token)` is `verify({token})`, with no remote IP. */
    method VerifyToken(token: string) returns (ok: bool)
      modifies fileReader.fs, endpoint
      ensures var run := VerifyRun(config, fileReader.fs.entries, VerifyCaptchaDto(token, None), endpoint.reply);
              && ok == run.verdict
              && endpoint.requests == old(endpoint.requests) + run.request.ToSeq()
      ensures fileReader.fs.log == old(fileReader.fs.log) + SecretKeyOps(config, fileReader.fs.entries)
    {
      ok := Verify(VerifyCaptchaDto(token, None));
    }

    method GetSecretKey() returns (r: Result<SecretKey, HttpError>)
      modifies fileReader.fs
      ensures r == SecretKeyResult(config, fileReader.fs.entries)
      ensures fileReader.fs.log == old(fileReader.fs.log) + SecretKeyOps(config, fileReader.fs.entries)
    {
      var file := config.Get(SecretKeyFileSetting);
      var verificatorUrl := config.GetOr(VerifyUrlSetting, DefaultVerifyUrl);
      if !Truthy(file) {
        return Failure(InternalServerError(SecretKeyFileMissing));
      }
      var secretKey := fileReader.ReadFile(file.value);
      if secretKey.Failure? {
        return Failure(InternalServerError(secretKey.error.message));
      }
      r := Success(SecretKey(secretKey.value, verificatorUrl));
    }
  }
}
