# Account-setup wizard decisions of the ownCloud desktop client

This project models the decision logic embedded in the ownCloud client's
setup wizard (`OwncloudSetupWizard` and `DetermineAuthTypeJob` in
`src/mirall/owncloudsetupwizard.cpp`) and proves properties of it in Dafny.
It has three parts:

- **Auth-type discovery** (`auth_discovery.dfy`, module `AuthDiscovery`).
  `DetermineAuthTypeJob` probes the WebDAV path with the account's current
  credentials (dummy ones on a first setup, line 85). It
  follows redirects that stay on that path, up to `maxRedirects()`. Then it
  emits `HttpCreds` or `Shibboleth`. `Decide` is the decision for one reply,
  and `RunFrom` is the specification of a whole run over a sequence of
  replies. The class `DetermineAuthTypeJob` holds the `redirects` counter,
  the request in flight, the emitted signals and the deletion flag. Its
  `SlotFinished` method is proved against `Decide`. The driver `Discover`
  feeds replies to a fresh job in a loop and is proved to equal `RunFrom`.
  `maxRedirects()` and `Account::davPath()` are defined outside this file,
  so they are parameters.
- **URL scheme defaulting** (`setup_wizard.dfy`, `SetupWizard.DefaultScheme`).
  The URL that `QUrl::fromUserInput` parses is opaque here: a scheme plus
  everything after it.
- **Reply classifiers** (`setup_wizard.dfy`). These cover the credential
  check, the remote-folder existence check and the remote-folder creation.
  The creation slot changes the wizard's `_remoteFolder`. It is modelled as
  a method of the class `OwncloudSetupWizard`, proved against the
  specification function `ClassifyFolderCreation`.

Error codes are the numeric values of Qt's `QNetworkReply::NetworkError`
(`network_reply.dfy`). The code compares them with raw integers (202,
203..299). String operations are in `text.dfy`: case-sensitive prefix and
suffix tests, a substring search, and ASCII lower-casing for the
case-insensitive "SAML|wayf" test.

A reply to the discovery probe that carries a non-authentication error and
no redirection resolves to `HttpCreds` (line 414). This job has no
separate network-failure outcome. Connection failures are reported earlier,
by `CheckServerJob` (lines 127-129, 145-151). The model follows the code.

## Model

| member | source | states |
|---|---|---|
| `AuthDiscovery.Decide` | src/mirall/owncloudsetupwizard.cpp:410-431 | Auth-required or an empty redirection gives HttpCreds, even when a redirect target is present; once `redirects >= maxRedirects` the step is always HttpCreds; it follows exactly when the error is not auth-required, hops are left, and the target is non-empty and ends with davPath, and then it follows that target; Shibboleth exactly for other redirects whose target contains SAML or wayf in any case |
| `AuthDiscovery.MarkerAnywhere` | src/mirall/owncloudsetupwizard.cpp:422-425 | The marker test `HasShibbolethMarker` holds exactly when "saml" or "wayf", ignoring case, starts at some index of the target |
| `AuthDiscovery.MarkerIgnoresCase` | src/mirall/owncloudsetupwizard.cpp:422-425 | The marker test gives the same answer on the lower-cased target |
| `AuthDiscovery.MarkedRedirectIsShibboleth` | src/mirall/owncloudsetupwizard.cpp:421-426 | A redirect off the WebDAV path with a marker at some position, while hops are left and the error is not auth-required, resolves to Shibboleth |
| `AuthDiscovery.RunBound` | src/mirall/owncloudsetupwizard.cpp:410-420 | A run (`RunFrom`, the specification of a whole job fed its replies in order) issues at most `maxRedirects - redirects` follow-ups, at most one per reply. It is still waiting exactly when every reply led to a follow-up |
| `AuthDiscovery.RunTargets` | src/mirall/owncloudsetupwizard.cpp:416-420 | The k-th follow-up goes to the k-th reply's redirect target, which is non-empty and ends with davPath |
| `AuthDiscovery.ChainThenDecides` | src/mirall/owncloudsetupwizard.cpp:410-431 | A chain of k redirects onto the WebDAV path, within the bound, is followed hop by hop (the follow-ups are exactly those k targets), and the next reply's decision is the auth type the run emits |
| `AuthDiscovery.RunResolvesPastBound` | src/mirall/owncloudsetupwizard.cpp:411-415 | More replies than hops left always end the run with an emitted auth type |
| `AuthDiscovery.RedirectLoopGivesHttpCreds` | src/mirall/owncloudsetupwizard.cpp:410-420 | A server that keeps redirecting onto the WebDAV path is followed exactly up to the bound, then the run resolves to HttpCreds |
| `AuthDiscovery.OneHopThenChallenge` | src/mirall/owncloudsetupwizard.cpp:414-420 | One hop to the same WebDAV path on another host, then a 401 challenge, reports HttpCreds after one follow-up. This is the corrected run: unlike line 433, a follow does not delete the job |
| `AuthDiscovery.DetermineAuthTypeJob.constructor` | src/mirall/owncloudsetupwizard.cpp:399-406 | The job starts with no redirects, the WebDAV path in flight, nothing emitted and not deleted |
| `AuthDiscovery.DetermineAuthTypeJob.SlotFinished` | src/mirall/owncloudsetupwizard.cpp:408-434 | The step is the one `Decide` takes. A follow raises `redirects` by exactly one, replaces the request and emits nothing. Every other step emits exactly one auth type, keeps counter and request, and ends the job. `redirects <= maxRedirects` is kept. Corrected: unlike line 433, a follow does not delete the job |
| `AuthDiscovery.DetermineAuthTypeJob.SlotFinishedAsWritten` | src/mirall/owncloudsetupwizard.cpp:408-434 | Same decision as `Decide`, but the job is scheduled for deletion on every path, including right after re-issuing the request |
| `AuthDiscovery.Discover` | src/mirall/owncloudsetupwizard.cpp:399-434 | Driving a fresh job with its replies gives exactly the specified run `RunFrom`. At most maxRedirects follow-up requests are issued, and an emitted auth type comes from a reply that was not followed, so there are fewer follow-ups than replies |
| `AuthDiscovery.RedirectAsWritten` | src/mirall/owncloudsetupwizard.cpp:416-433 | As written, a followed redirect leaves the job deleted with the request re-issued and nothing emitted |
| `Text.ContainsAt` | src/mirall/owncloudsetupwizard.cpp:425 | The left-to-right search finds a substring exactly when it occurs at some index |
| `SetupWizard.DefaultScheme` | src/mirall/owncloudsetupwizard.cpp:119-124 | Input not starting with "http://" or "https://" gets scheme https; otherwise the parsed URL is unchanged; the rest of the URL is never touched |
| `SetupWizard.OtherSchemeIsForced` | src/mirall/owncloudsetupwizard.cpp:122-124 | Only "http://" and "https://" count as explicit: input starting with "ftp://" still gets https |
| `SetupWizard.UpperCaseSchemeIsForced` | src/mirall/owncloudsetupwizard.cpp:122-124 | The prefix test is case-sensitive: input starting with "HTTP://" still gets https |
| `SetupWizard.ConnectionCheck` | src/mirall/owncloudsetupwizard.cpp:170-182 | successfulStep exactly on NoError or ContentNotFoundError; every other error shows "wrong credentials" |
| `SetupWizard.AuthCheckReply` | src/mirall/owncloudsetupwizard.cpp:217-242 | At most two calls. The slot never calls successfulStep itself (finalizeSetup(true) does, line 302). finalizeSetup is called exactly once, last. It gets true on NoError, and on ContentNotFoundError with a non-empty remote folder; in that case the calls are exactly createRemoteFolder then finalizeSetup(true). On false, one error comes first: "no remote folder specified" for an empty folder, otherwise the reply's own error |
| `SetupWizard.ClassifyFolderCreation` | src/mirall/owncloudsetupwizard.cpp:258-281 | Branches in source order. Success exactly for NoError and 202..299; 202 is "already exists"; 203..299 are HTTP errors that still succeed; OperationCanceledError is "wrong credentials"; all else fails with its code |
| `SetupWizard.FolderCreationCallsShape` | src/mirall/owncloudsetupwizard.cpp:258-283 | Each branch calls finalizeSetup once, last, with its success flag. It shows an error unless the code is NoError or 202 |
| `SetupWizard.FailedCreationFinalizesTwice` | src/mirall/owncloudsetupwizard.cpp:225-283 | With a remote folder configured, a missing folder finalizes as success before the creation runs. A failed creation then calls finalizeSetup again, with failure |
| `SetupWizard.OwncloudSetupWizard.SlotCreateRemoteFolderFinished` | src/mirall/owncloudsetupwizard.cpp:252-284 | The remote folder is kept when the creation succeeds and cleared otherwise. The branch's calls are appended, ending with finalizeSetup(success) |

## Left out

- Qt signal/slot wiring, job construction, `getRequest`/`setReply`/`setupConnections` and object lifetimes other than the deletion flag (lines 39-61, 127-129, 403-405, 436-448): network I/O and object ownership. `ValidateDavAuthJob` only forwards its reply, so its reply is the input of `ConnectionCheck`.
- The queued-connection remark (lines 51-55): event-loop re-entrancy, not logic.
- `QUrl::fromUserInput`, `QDir` checks, `mkpath` and `Utility::setupFavLink` (lines 99-101, 120, 184-214): library and filesystem calls whose behaviour is not in this file. The parsed URL is opaque.
- `runWizard`'s single-instance guard and `startWizard` (lines 63-114): GUI and session setup.
- `ensureStartFromScratch` (lines 312-328): a retry loop driven by a modal message box.
- `slotAssistantFinished` and `replaceDefaultAccountWith` (lines 330-397): calls into `FolderMan` and `AccountManager`, and `Account::changed` is not part of this model.
- `finalizeSetup` and all `tr()` log and HTML text (lines 286-310 and throughout): UI text. Only the calls to `finalizeSetup`, `displayError`, `successfulStep` and `createRemoteFolder` are recorded.
- The values of `maxRedirects()` and `Account::davPath()` are not part of this model; both are parameters.
- `AuthDiscovery.HasShibbolethMarker`: folds case for ASCII letters only, where `QRegExp` with `Qt::CaseInsensitive` folds Unicode case.
- The redirect target is modelled by its string form. A `QUrl` counts as empty exactly when that string is empty.

## Findings

| source | as written | input that shows it | evidently intended | confidence | as-written member | corrected member |
|---|---|---|---|---|---|---|
| src/mirall/owncloudsetupwizard.cpp:416-433 | `deleteLater()` runs at the end of `slotFinished` on every path, including right after the request was re-issued to a redirect target on the WebDAV path | first reply has error NoError and redirect target `https://example.com/remote.php/webdav/`, with davPath `remote.php/webdav/` and `maxRedirects() >= 1` | keep the job alive while the re-issued request is in flight, and delete it only after emitting the auth type (`DetermineAuthTypeJob.SlotFinished` returns early on a follow; `OneHopThenChallenge` then reports HttpCreds) | medium; not executed. It relies on Qt destroying the job at the next event-loop pass, before the follow-up reply arrives, which disconnects `slotFinished` | `AuthDiscovery.RedirectAsWritten` | `AuthDiscovery.Discover` |
