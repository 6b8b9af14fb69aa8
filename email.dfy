/** `EmailService`: captcha, SMTP configuration, three secret reads
    (all or nothing), then one send. The outcome of a run is a function of
    the captcha verdict, the configuration, the file system, the request and
    the transport's answer; the service methods are proved to agree with it
    and to touch the collaborators only as it says. */
module Email {
  import opened Wrappers
  import opened Platform
  import FileReader
  import Captcha

  const SmtpSecureSetting: string := "SMTP_SECURE"
  const SmtpHostSetting: string := "SMTP_HOST"
  const TargetEmailFileSetting: string := "TARGET_EMAIL_FILE"
  const SmtpUserFileSetting: string := "SMTP_USER_FILE"
  const SmtpPassFileSetting: string := "SMTP_PASS_FILE"
  const DefaultSmtpPort: int := 587

  const CaptchaFailedMessage: string := "Captcha verification failed. Please try again."
  const SmtpHostMissing: string := "SMTP host not found"
  const CredentialFilesMissing: string := "Credentials files not found"
  const CredentialDataLost: string := "Credential data is lost"
  const CredentialsErrorPrefix: string := "Credentials error"
  const UnableToSendMessage: string := "Unable to send your message. Please try again later."

  /** `SendEmailDto`. */
  datatype SendEmailDto = SendEmailDto(email: string, theme: string, description: string, token: string)

  datatype SmtpCredentials = SmtpCredentials(
    port: int, secure: bool, host: string, user: string, password: string, targetEmail: string)

  /** A run of `getSmtpCredential`: what it returns or throws, and the secret
      files it hands to the reader (user, password, recipient). */
  datatype CredentialRun = CredentialRun(result: Result<SmtpCredentials, HttpError>, paths: seq<string>)

  /** A run of `sendEmail`: what it returns or throws, the secret files read,
      and the `sendMail` call made, if any. */
  datatype EmailRun = EmailRun(result: Outcome<HttpError>, paths: seq<string>, delivery: Option<Delivery>)

  predicate FilesConfigured(config: Config) {
    && Truthy(config.Get(TargetEmailFileSetting))
    && Truthy(config.Get(SmtpUserFileSetting))
    && Truthy(config.Get(SmtpPassFileSetting))
  }

  /** The secret at `path` loads and is non-empty. */
  predicate Loads(entries: map<string, FileEntry>, path: string) {
    var r := FileReader.ReadFileResult(entries, path);
    r.Success? && Truthy(r.value)
  }

  function Loaded(entries: map<string, FileEntry>, path: string): string
    requires Loads(entries, path)
  {
    FileReader.ReadFileResult(entries, path).value.value
  }

  /** The exception `getSmtpCredential` builds in its `catch` block. */
  function CredentialsError(cause: HttpError): HttpError {
    InternalServerError(CredentialsErrorPrefix + ": " + cause.message)
  }

  /** `getSmtpCredential()`: the host check, the secret-path check, then the
      three reads and their assembly. */
  function CredentialRunOf(config: Config, entries: map<string, FileEntry>): CredentialRun {
    var secure := config.Get(SmtpSecureSetting);
    var port := config.smtpPort.GetOr(DefaultSmtpPort);
    var host := config.Get(SmtpHostSetting);
    if !Truthy(host) then CredentialRun(Failure(InternalServerError(SmtpHostMissing)), [])
    else if !FilesConfigured(config) then CredentialRun(Failure(InternalServerError(CredentialFilesMissing)), [])
    else
      var userFile := config.Get(SmtpUserFileSetting).value;
      var passFile := config.Get(SmtpPassFileSetting).value;
      var targetFile := config.Get(TargetEmailFileSetting).value;
      var result := AssembleCredentials(port, secure, host.value,
                                        FileReader.ReadFileResult(entries, userFile),
                                        FileReader.ReadFileResult(entries, passFile),
                                        FileReader.ReadFileResult(entries, targetFile));
      CredentialRun(result, [userFile, passFile, targetFile])
  }

  /** What `getSmtpCredential()` promises. A missing host fails first, then a
      missing secret path, both before any read. With everything configured
      all three secrets are read (user, password, recipient), and credentials
      come back only when all three load non-empty; `secure` is the setting
      being exactly "true", the port defaults to 587. Every failure is an
      internal error. */
  lemma CredentialRunOfSpec(config: Config, entries: map<string, FileEntry>)
    ensures var r := CredentialRunOf(config, entries);
      && (!Truthy(config.Get(SmtpHostSetting)) ==>
            r == CredentialRun(Failure(InternalServerError(SmtpHostMissing)), []))
      && (Truthy(config.Get(SmtpHostSetting)) && !FilesConfigured(config) ==>
            r == CredentialRun(Failure(InternalServerError(CredentialFilesMissing)), []))
      && (r.paths != [] <==> Truthy(config.Get(SmtpHostSetting)) && FilesConfigured(config))
      && (r.paths != [] ==>
            r.paths == [config.Get(SmtpUserFileSetting).value, config.Get(SmtpPassFileSetting).value,
                        config.Get(TargetEmailFileSetting).value])
      && (r.result.Success? <==>
            && r.paths != []
            && Loads(entries, r.paths[0]) && Loads(entries, r.paths[1]) && Loads(entries, r.paths[2]))
      && (r.result.Success? ==>
            r.result.value == SmtpCredentials(
              config.smtpPort.GetOr(DefaultSmtpPort),
              config.Get(SmtpSecureSetting) == Some("true"),
              config.Get(SmtpHostSetting).value,
              Loaded(entries, r.paths[0]), Loaded(entries, r.paths[1]), Loaded(entries, r.paths[2])))
      && (r.result.Failure? ==> r.result.error.InternalServerError?)
  {
    if Truthy(config.Get(SmtpHostSetting)) && FilesConfigured(config) {
      AssembleCredentialsSpec(config.smtpPort.GetOr(DefaultSmtpPort), config.Get(SmtpSecureSetting),
                              config.Get(SmtpHostSetting).value,
                              FileReader.ReadFileResult(entries, config.Get(SmtpUserFileSetting).value),
                              FileReader.ReadFileResult(entries, config.Get(SmtpPassFileSetting).value),
                              FileReader.ReadFileResult(entries, config.Get(TargetEmailFileSetting).value));
    }
  }

  /** Lines after the three reads: a failed read, then an empty value, each
      rethrown as a "Credentials error"; otherwise the credentials. */
  function AssembleCredentials(port: int, secure: Option<string>, host: string,
                               user: Result<Option<string>, HttpError>,
                               password: Result<Option<string>, HttpError>,
                               targetEmail: Result<Option<string>, HttpError>): Result<SmtpCredentials, HttpError>
  {
    if user.Failure? then Failure(CredentialsError(user.error))
    else if password.Failure? then Failure(CredentialsError(password.error))
    else if targetEmail.Failure? then Failure(CredentialsError(targetEmail.error))
    else if !Truthy(user.value) || !Truthy(password.value) || !Truthy(targetEmail.value) then
      Failure(CredentialsError(InternalServerError(CredentialDataLost)))
    else
      Success(SmtpCredentials(port, secure == Some("true"), host,
                              user.value.value, password.value.value, targetEmail.value.value))
  }

  /** The assembly succeeds exactly when all three reads returned a
      non-empty value, and then carries those values; every failure is an
      internal error. */
  lemma AssembleCredentialsSpec(port: int, secure: Option<string>, host: string,
                                user: Result<Option<string>, HttpError>,
                                password: Result<Option<string>, HttpError>,
                                targetEmail: Result<Option<string>, HttpError>)
    ensures var r := AssembleCredentials(port, secure, host, user, password, targetEmail);
      && (r.Success? <==>
            && user.Success? && Truthy(user.value)
            && password.Success? && Truthy(password.value)
            && targetEmail.Success? && Truthy(targetEmail.value))
      && (r.Success? ==>
            r.value == SmtpCredentials(port, secure == Some("true"), host,
                                       user.value.value, password.value.value, targetEmail.value.value))
      && (r.Failure? ==> r.error.InternalServerError?)
  {
  }

  /** The mail body: sender, subject, then the description. */
  function MailText(dto: SendEmailDto): (r: string)
    ensures |r| == 14 + |dto.email| + |dto.theme| + |dto.description|
    ensures r[..4] == "От: "
    ensures r[4..4 + |dto.email|] == dto.email
    ensures r[4 + |dto.email|..12 + |dto.email|] == "\n\nТема: "
    ensures r[12 + |dto.email|..12 + |dto.email| + |dto.theme|] == dto.theme
    ensures r[12 + |dto.email| + |dto.theme|..14 + |dto.email| + |dto.theme|] == "\n\n"
    ensures r[|r| - |dto.description|..] == dto.description
  {
    var from := "От: " + dto.email;
    var subject := from + "\n\nТема: ";
    var withTheme := subject + dto.theme;
    var head := withTheme + "\n\n";
    var r := head + dto.description;
    assert r[..|head|] == head;
    assert head[..|withTheme|] == withTheme;
    assert withTheme[..|subject|] == subject;
    assert from[..4] == subject[..4] == withTheme[..4] == head[..4] == r[..4];
    assert from[4..] == subject[4..|from|] == withTheme[4..|from|] == head[4..|from|] == r[4..|from|];
    assert subject[|from|..] == withTheme[|from|..|subject|] == head[|from|..|subject|] == r[|from|..|subject|];
    assert withTheme[|subject|..] == head[|subject|..|withTheme|] == r[|subject|..|withTheme|];
    assert head[|withTheme|..] == r[|withTheme|..|head|];
    r
  }

  function TransportOf(c: SmtpCredentials): TransportOptions {
    TransportOptions(c.host, c.port, c.secure, c.user, c.password)
  }

  /** `sendEmail(dto)` given the captcha verdict and what `sendMail` would do. */
  function EmailRunOf(captchaValid: bool, config: Config, entries: map<string, FileEntry>,
                      dto: SendEmailDto, sendFailure: Option<string>): EmailRun
  {
    if !captchaValid then EmailRun(Fail(Forbidden(CaptchaFailedMessage)), [], None)
    else
      var cred := CredentialRunOf(config, entries);
      match cred.result
      case Failure(_) => EmailRun(Fail(InternalServerError(UnableToSendMessage)), cred.paths, None)
      case Success(c) =>
        var delivery := Delivery(TransportOf(c), MailMessage(c.user, c.targetEmail, dto.theme, MailText(dto)));
        var result := if sendFailure.None? then Pass else Fail(InternalServerError(UnableToSendMessage));
        EmailRun(result, cred.paths, Some(delivery))
  }

  /** What `sendEmail(dto)` promises. A rejected captcha is Forbidden with
      nothing read and nothing sent. After that, the secrets are read as
      `getSmtpCredential()` reads them, and every failure (credentials or
      transport) is the same internal error. `sendMail` is called once, and
      only with loaded credentials: from the user, to the recipient, with the
      theme as subject; the send succeeds exactly when the transport
      accepts. */
  lemma EmailRunOfSpec(captchaValid: bool, config: Config, entries: map<string, FileEntry>,
                       dto: SendEmailDto, sendFailure: Option<string>)
    ensures var r := EmailRunOf(captchaValid, config, entries, dto, sendFailure);
            var cred := CredentialRunOf(config, entries);
      && (!captchaValid ==> r == EmailRun(Fail(Forbidden(CaptchaFailedMessage)), [], None))
      && (captchaValid ==> r.paths == cred.paths)
      && (captchaValid && r.result.Fail? ==> r.result.error == InternalServerError(UnableToSendMessage))
      && (r.delivery.Some? <==> captchaValid && cred.result.Success?)
      && (r.delivery.Some? ==>
            r.delivery.value == Delivery(TransportOf(cred.result.value),
                                         MailMessage(cred.result.value.user, cred.result.value.targetEmail,
                                                     dto.theme, MailText(dto))))
      && (r.result.Pass? <==> r.delivery.Some? && sendFailure.None?)
  {
    if captchaValid {
      var cred := CredentialRunOf(config, entries);
      if cred.result.Success? {
        var c := cred.result.value;
        assert EmailRunOf(captchaValid, config, entries, dto, sendFailure).delivery
               == Some(Delivery(TransportOf(c), MailMessage(c.user, c.targetEmail, dto.theme, MailText(dto))));
      }
    }
  }

  /** The file-system calls made for a list of secret files, one `readFile`
      after another. */
  ghost function ReadsOps(entries: map<string, FileEntry>, paths: seq<string>): seq<FsOp> {
    if paths == [] then [] else FileReader.ReadFileOps(entries, paths[0]) + ReadsOps(entries, paths[1..])
  }

  /** Three reads after a history `log0` leave the history followed by the
      accesses of each read in turn. */
  lemma ReadsOpsOfThree(log0: seq<FsOp>, entries: map<string, FileEntry>, a: string, b: string, c: string)
    ensures log0 + ReadsOps(entries, [a, b, c])
            == log0 + FileReader.ReadFileOps(entries, a) + FileReader.ReadFileOps(entries, b)
               + FileReader.ReadFileOps(entries, c)
  {
    var oa, ob, oc := FileReader.ReadFileOps(entries, a), FileReader.ReadFileOps(entries, b),
                      FileReader.ReadFileOps(entries, c);
    assert [c][1..] == [];
    assert ReadsOps(entries, [c]) == oc + ReadsOps(entries, []);
    assert [b, c][1..] == [c];
    assert ReadsOps(entries, [b, c]) == ob + oc;
    assert [a, b, c][1..] == [b, c];
    assert ReadsOps(entries, [a, b, c]) == oa + (ob + oc);
    AppendAssoc(log0, oa, ob + oc);
    AppendAssoc(log0 + oa, ob, oc);
  }

  /** Any one unreadable or empty secret is enough to stop the send, whatever
      the other two hold. */
  lemma {:induction false} OneBadSecretStopsSend(captchaValid: bool, config: Config, entries: map<string, FileEntry>,
                                                dto: SendEmailDto, sendFailure: Option<string>, k: nat)
    requires Truthy(config.Get(SmtpHostSetting)) && FilesConfigured(config)
    requires k < 3
    requires !Loads(entries, CredentialRunOf(config, entries).paths[k])
    ensures EmailRunOf(captchaValid, config, entries, dto, sendFailure).delivery.None?
    ensures captchaValid ==> EmailRunOf(captchaValid, config, entries, dto, sendFailure).result
                             == Fail(InternalServerError(UnableToSendMessage))
  {
    var paths := [config.Get(SmtpUserFileSetting).value, config.Get(SmtpPassFileSetting).value,
                  config.Get(TargetEmailFileSetting).value];
    var loaded := [FileReader.ReadFileResult(entries, paths[0]), FileReader.ReadFileResult(entries, paths[1]),
                  FileReader.ReadFileResult(entries, paths[2])];
    var result := AssembleCredentials(config.smtpPort.GetOr(DefaultSmtpPort), config.Get(SmtpSecureSetting),
                                      config.Get(SmtpHostSetting).value, loaded[0], loaded[1], loaded[2]);
    assert CredentialRunOf(config, entries) == CredentialRun(result, paths);
    assert !(loaded[k].Success? && Truthy(loaded[k].value));
    AssembleCredentialsSpec(config.smtpPort.GetOr(DefaultSmtpPort), config.Get(SmtpSecureSetting),
                            config.Get(SmtpHostSetting).value, loaded[0], loaded[1], loaded[2]);
    assert result.Failure?;
  }

  class EmailService {
    const config: Config
    const fileReader: FileReader.FileReaderService
    const captchaService: Captcha.CaptchaService
    const mailer: Mailer

    /** Both services read the one file system. */
    ghost predicate Valid() {
      captchaService.fileReader.fs == fileReader.fs
    }

    constructor (config: Config, fileReader: FileReader.FileReaderService,
                 captchaService: Captcha.CaptchaService, mailer: Mailer)
      requires captchaService.fileReader.fs == fileReader.fs
      ensures Valid()
      ensures this.config == config && this.fileReader == fileReader
      ensures this.captchaService == captchaService && this.mailer == mailer
    {
      this.config := config;
      this.fileReader := fileReader;
      this.captchaService := captchaService;
      this.mailer := mailer;
    }

    method SendEmail(dto: SendEmailDto) returns (r: Outcome<HttpError>)
      requires Valid()
      modifies fileReader.fs, captchaService.endpoint, mailer
      ensures var verdict := Captcha.VerifyRun(captchaService.config, fileReader.fs.entries,
                                               Captcha.VerifyCaptchaDto(dto.token, None), captchaService.endpoint.reply);
              var run := EmailRunOf(verdict.verdict, config, fileReader.fs.entries, dto, mailer.failure);
              && r == run.result
              && mailer.deliveries == old(mailer.deliveries) + run.delivery.ToSeq()
              && captchaService.endpoint.requests == old(captchaService.endpoint.requests) + verdict.request.ToSeq()
              && fileReader.fs.log == old(fileReader.fs.log)
                                      + Captcha.SecretKeyOps(captchaService.config, fileReader.fs.entries)
                                      + ReadsOps(fileReader.fs.entries, run.paths)
    {
      var isCaptchaValid := captchaService.VerifyToken(dto.token);
      if !isCaptchaValid {
        return Fail(Forbidden(CaptchaFailedMessage));
      }
      var credentials := GetSmtpCredential();
      if credentials.Failure? {
        return Fail(InternalServerError(UnableToSendMessage));
      }
      var c := credentials.value;
      var transport := TransportOf(c);
      var sent := mailer.SendMail(transport, MailMessage(c.user, c.targetEmail, dto.theme, MailText(dto)));
      if sent.Fail? {
        return Fail(InternalServerError(UnableToSendMessage));
      }
      r := Pass;
    }

    method GetSmtpCredential() returns (r: Result<SmtpCredentials, HttpError>)
      modifies fileReader.fs
      ensures var run := CredentialRunOf(config, fileReader.fs.entries);
              && r == run.result
              && fileReader.fs.log == old(fileReader.fs.log) + ReadsOps(fileReader.fs.entries, run.paths)
    {
      var secure := config.Get(SmtpSecureSetting);
      var port := config.smtpPort.GetOr(DefaultSmtpPort);
      var host := config.Get(SmtpHostSetting);
      if !Truthy(host) {
        return Failure(InternalServerError(SmtpHostMissing));
      }
      var targetEmailFile := config.Get(TargetEmailFileSetting);
      var smtpUserFile := config.Get(SmtpUserFileSetting);
      var smtpPasswordFile := config.Get(SmtpPassFileSetting);
      if !Truthy(targetEmailFile) || !Truthy(smtpUserFile) || !Truthy(smtpPasswordFile) {
        return Failure(InternalServerError(CredentialFilesMissing));
      }
      // The three reads of `Promise.all`, one after the other; every one is
      // issued whatever the others give.
      ghost var log0 := fileReader.fs.log;
      var user := fileReader.ReadFile(smtpUserFile.value);
      var password := fileReader.ReadFile(smtpPasswordFile.value);
      var targetEmail := fileReader.ReadFile(targetEmailFile.value);
      ReadsOpsOfThree(log0, fileReader.fs.entries, smtpUserFile.value, smtpPasswordFile.value, targetEmailFile.value);
      assert CredentialRunOf(config, fileReader.fs.entries).paths
             == [smtpUserFile.value, smtpPasswordFile.value, targetEmailFile.value];
      r := AssembleCredentials(port, secure, host.value, user, password, targetEmail);
    }
  }
}
