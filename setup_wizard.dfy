/** The decisions OwncloudSetupWizard takes around the network jobs: the
    scheme it forces onto the URL the user typed, and how it classifies the
    replies of the credential check, the remote-folder existence check and
    the remote-folder creation. Calls into the wizard dialog are recorded as
    WizardCall values; log text and dialog rendering are not modelled. */
module SetupWizard {
  import opened Text
  import opened NetworkReply

  /** A URL as QUrl::fromUserInput parsed it, left opaque: its scheme and
      everything after the scheme. */
  datatype ParsedUrl = ParsedUrl(scheme: string, rest: string)

  /** The user typed an explicit scheme, in lower case. */
  predicate ExplicitScheme(userInput: string)
  {
    StartsWith(userInput, "http://") || StartsWith(userInput, "https://")
  }

  /** slotDetermineAuthType: unless the typed string literally starts with
      "http://" or "https://", the parsed URL gets scheme https. */
  function DefaultScheme(userInput: string, parsed: ParsedUrl): (url: ParsedUrl)
    ensures url.rest == parsed.rest
    ensures ExplicitScheme(userInput) ==> url == parsed
    ensures !ExplicitScheme(userInput) ==> url.scheme == "https"
  {
    if !StartsWith(userInput, "http://") && !StartsWith(userInput, "https://") then
      parsed.(scheme := "https")
    else
      parsed
  }

  /** Only the two web schemes count as explicit: input with any other
      scheme prefix, such as "ftp://", still gets https. */
  lemma OtherSchemeIsForced(userInput: string, parsed: ParsedUrl)
    requires StartsWith(userInput, "ftp://")
    ensures DefaultScheme(userInput, parsed).scheme == "https"
  {
    assert userInput[0] == 'f';
  }

  /** The prefix test is case-sensitive: an upper-case "HTTP://" does not
      count as an explicit scheme, so https is forced. */
  lemma UpperCaseSchemeIsForced(userInput: string, parsed: ParsedUrl)
    requires StartsWith(userInput, "HTTP://")
    ensures DefaultScheme(userInput, parsed).scheme == "https"
  {
    assert userInput[0] == 'H';
  }

  /** Messages the wizard shows through displayError. */
  datatype ErrorMessage =
    | WrongCredentials
    | NoRemoteFolderSpecified
    | ReplyError(code: int)
    | FolderCreationHttpError(code: int)
    | FolderCreationCredentialsWrong
    | FolderCreationFailed(code: int)

  /** Calls the wizard code makes on the dialog or on itself. */
  datatype WizardCall =
    | SuccessfulStep
    | DisplayError(message: ErrorMessage)
    | CreateRemoteFolder
    | FinalizeSetup(ok: bool)

  /** slotConnectionCheck: the credential check succeeds on NoError and on
      ContentNotFoundError; every other error is reported as wrong
      credentials. */
  function ConnectionCheck(error: int): (call: WizardCall)
    ensures call == SuccessfulStep <==> error == NoError || error == ContentNotFoundError
    ensures call != SuccessfulStep ==> call == DisplayError(WrongCredentials)
  {
    match error
    case 0 => SuccessfulStep
    case 203 => SuccessfulStep
    case _ => DisplayError(WrongCredentials)
  }

  predicate ShowsError(calls: seq<WizardCall>)
  {
    exists i :: 0 <= i < |calls| && calls[i].DisplayError?
  }

  /** The calls end with exactly one finalizeSetup, and it is the last one. */
  predicate FinalizesOnceAtEnd(calls: seq<WizardCall>)
  {
    |calls| > 0 && calls[|calls| - 1].FinalizeSetup? &&
    forall i :: 0 <= i < |calls| - 1 ==> !calls[i].FinalizeSetup?
  }

  /** slotAuthCheckReply: finalizeSetup is called once, last; it is told
      success on NoError, and on ContentNotFoundError when a remote folder
      is configured, in which case the folder creation is started just
      before it; on failure exactly one error is shown first, naming the
      missing folder or the reply's error. The slot never calls
      successfulStep itself; finalizeSetup(true) does that. */
  function AuthCheckReply(error: int, remoteFolder: string): (calls: seq<WizardCall>)
    ensures FinalizesOnceAtEnd(calls)
    ensures |calls| <= 2
    ensures forall i :: 0 <= i < |calls| ==> !calls[i].SuccessfulStep?
    ensures calls[|calls| - 1].ok <==>
      error == NoError || (error == ContentNotFoundError && remoteFolder != "")
    ensures CreateRemoteFolder in calls <==> error == ContentNotFoundError && remoteFolder != ""
    ensures CreateRemoteFolder in calls ==> calls == [CreateRemoteFolder, FinalizeSetup(true)]
    ensures ShowsError(calls) <==> !calls[|calls| - 1].ok
    ensures error == ContentNotFoundError && remoteFolder == "" ==>
      calls[0] == DisplayError(NoRemoteFolderSpecified)
    ensures error != NoError && error != ContentNotFoundError ==>
      calls[0] == DisplayError(ReplyError(error))
  {
    if error == NoError then
      [FinalizeSetup(true)]
    else if error == ContentNotFoundError then
      if remoteFolder == "" then
        var shown := [DisplayError(NoRemoteFolderSpecified), FinalizeSetup(false)];
        assert shown[0].DisplayError?;
        shown
      else [CreateRemoteFolder, FinalizeSetup(true)]
    else
      var shown := [DisplayError(ReplyError(error)), FinalizeSetup(false)];
      assert shown[0].DisplayError?;
      shown
  }

  /** The branch slotCreateRemoteFolderFinished takes on the MKCOL result. */
  datatype FolderCreation =
    | Created
    | AlreadyExists
    | HttpErrorCode(code: int)
    | CredentialsWrong
    | CreationFailed(code: int)
  {
    /** The local success flag after the branch. */
    predicate Succeeds()
    {
      Created? || AlreadyExists? || HttpErrorCode?
    }

    /** The displayError and finalizeSetup calls the branch makes. */
    function Calls(): seq<WizardCall>
    {
      match this
      case Created => [FinalizeSetup(true)]
      case AlreadyExists => [FinalizeSetup(true)]
      case HttpErrorCode(code) => [DisplayError(FolderCreationHttpError(code)), FinalizeSetup(true)]
      case CredentialsWrong => [DisplayError(FolderCreationCredentialsWrong), FinalizeSetup(false)]
      case CreationFailed(code) => [DisplayError(FolderCreationFailed(code)), FinalizeSetup(false)]
    }
  }

  /** Branches are tried in source order: NoError, 202, 203..299,
      OperationCanceledError, everything else. Success is kept exactly for
      NoError and 202..299; the codes above 202 still show an error. */
  function ClassifyFolderCreation(error: int): (c: FolderCreation)
    ensures c.Succeeds() <==> error == NoError || 202 <= error < 300
    ensures c == Created <==> error == NoError
    ensures c == AlreadyExists <==> error == ContentOperationNotPermittedError
    ensures c.HttpErrorCode? <==> 202 < error < 300
    ensures c == CredentialsWrong <==> error == OperationCanceledError
    ensures c.HttpErrorCode? || c.CreationFailed? ==> c.code == error
  {
    if error == NoError then Created
    else if error == 202 then AlreadyExists
    else if error > 202 && error < 300 then HttpErrorCode(error)
    else if error == OperationCanceledError then CredentialsWrong
    else CreationFailed(error)
  }

  /** Every folder-creation branch calls finalizeSetup once, last, with its
      success flag, and shows an error unless the folder was created or
      already existed. */
  lemma FolderCreationCallsShape(error: int)
    ensures var c := ClassifyFolderCreation(error);
      FinalizesOnceAtEnd(c.Calls()) &&
      c.Calls()[|c.Calls()| - 1] == FinalizeSetup(c.Succeeds()) &&
      (ShowsError(c.Calls()) <==> error != NoError && error != ContentOperationNotPermittedError)
  {
    var c := ClassifyFolderCreation(error);
    if c.HttpErrorCode? || c.CredentialsWrong? || c.CreationFailed? {
      assert c.Calls()[0].DisplayError?;
    }
  }

  /** A missing remote folder with a folder configured already finalizes the
      setup as a success before the folder exists; when the creation then
      fails, finalizeSetup is called a second time, with failure. */
  lemma FailedCreationFinalizesTwice(remoteFolder: string, error: int)
    requires remoteFolder != ""
    requires !ClassifyFolderCreation(error).Succeeds()
    ensures var calls := AuthCheckReply(ContentNotFoundError, remoteFolder) + ClassifyFolderCreation(error).Calls();
      calls == [CreateRemoteFolder, FinalizeSetup(true), calls[2], FinalizeSetup(false)] &&
      calls[2].DisplayError?
  {
  }

  /** The part of OwncloudSetupWizard that the folder-creation slot changes:
      the configured remote folder and the calls made on the dialog. */
  class OwncloudSetupWizard {
    var remoteFolder: string
    var calls: seq<WizardCall>

    constructor (remoteFolder: string)
      ensures this.remoteFolder == remoteFolder && calls == []
    {
      this.remoteFolder := remoteFolder;
      calls := [];
    }

    /** slotCreateRemoteFolderFinished: the remote folder is kept when the
        creation succeeded and cleared otherwise, and the branch's calls are
        appended, ending with finalizeSetup(success). */
    method SlotCreateRemoteFolderFinished(error: int)
      modifies this
      ensures remoteFolder == if ClassifyFolderCreation(error).Succeeds() then old(remoteFolder) else ""
      ensures calls == old(calls) + ClassifyFolderCreation(error).Calls()
    {
      var success := true;
      if error == NoError {
      } else if error == 202 {
      } else if error > 202 && error < 300 {
        calls := calls + [DisplayError(FolderCreationHttpError(error))];
      } else if error == OperationCanceledError {
        calls := calls + [DisplayError(FolderCreationCredentialsWrong)];
        remoteFolder := "";
        success := false;
      } else {
        calls := calls + [DisplayError(FolderCreationFailed(error))];
        remoteFolder := "";
        success := false;
      }
      calls := calls + [FinalizeSetup(success)];
    }
  }
}
