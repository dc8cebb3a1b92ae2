/** DetermineAuthTypeJob: probes the server's WebDAV path without
    credentials, follows redirects that stay on that path up to a bound, and
    classifies the final reply as plain HTTP credentials or Shibboleth
    single sign-on. The bound (maxRedirects()) and the WebDAV path
    (Account::davPath()) are defined outside the wizard and are parameters. */
module AuthDiscovery {
  import opened Text
  import opened NetworkReply

  /** WizardCommon::AuthType, as far as this job produces it. */
  datatype AuthType = HttpCreds | Shibboleth

  datatype Option<T> = None | Some(value: T)

  /** What one finished reply makes the job do: emit an auth type and end,
      or re-issue the request to a redirect target. */
  datatype Step = Emit(auth: AuthType) | Follow(target: string)

  /** The case-insensitive search for "SAML" or "wayf" (QRegExp "SAML|wayf"
      with Qt::CaseInsensitive), with ASCII case folding. */
  predicate HasShibbolethMarker(url: string)
  {
    Contains(Lower(url), "saml") || Contains(Lower(url), "wayf")
  }

  /** One of the two markers starts at index `i` of `url`, ignoring case. */
  predicate MarkerAt(url: string, i: int)
  {
    0 <= i && i + 4 <= |url| && (Lower(url[i..i + 4]) == "saml" || Lower(url[i..i + 4]) == "wayf")
  }

  /** The marker test finds a marker exactly when one starts at some index. */
  lemma MarkerAnywhere(url: string)
    ensures HasShibbolethMarker(url) <==> exists i :: MarkerAt(url, i)
  {
    var l := Lower(url);
    ContainsAt(l, "saml");
    ContainsAt(l, "wayf");
    forall i | 0 <= i && i + 4 <= |url|
      ensures (OccursAt(l, "saml", i) || OccursAt(l, "wayf", i)) <==> MarkerAt(url, i)
    {
      LowerSlice(url, i, i + 4);
    }
    if HasShibbolethMarker(url) {
      var i :| OccursAt(l, "saml", i) || OccursAt(l, "wayf", i);
      assert MarkerAt(url, i);
    }
    if exists i :: MarkerAt(url, i) {
      var i :| MarkerAt(url, i);
      assert OccursAt(l, "saml", i) || OccursAt(l, "wayf", i);
    }
  }

  /** The marker test ignores case: it gives the same answer on the
      lower-cased target. */
  lemma MarkerIgnoresCase(url: string)
    ensures HasShibbolethMarker(Lower(url)) == HasShibbolethMarker(url)
  {
    LowerIdempotent(url);
  }

  /** The decision slotFinished takes on one reply, given the hops already
      followed. Authentication-required or an empty (or discarded)
      redirection wins over everything; then a target on the WebDAV path is
      followed; then the marker search picks Shibboleth; otherwise the job
      falls back to HttpCreds. */
  function Decide(redirects: nat, maxRedirects: nat, davPath: string, reply: Reply): (step: Step)
    ensures reply.error == AuthenticationRequiredError || reply.redirection == "" ==> step == Emit(HttpCreds)
    ensures redirects >= maxRedirects ==> step == Emit(HttpCreds)
    ensures step.Follow? <==>
      reply.error != AuthenticationRequiredError && redirects < maxRedirects &&
      reply.redirection != "" && EndsWith(reply.redirection, davPath)
    ensures step.Follow? ==> step.target == reply.redirection
    ensures step == Emit(Shibboleth) <==>
      reply.error != AuthenticationRequiredError && redirects < maxRedirects &&
      reply.redirection != "" && !EndsWith(reply.redirection, davPath) &&
      HasShibbolethMarker(reply.redirection)
  {
    var redirection := if redirects >= maxRedirects then "" else reply.redirection;
    if reply.error == AuthenticationRequiredError || redirection == "" then Emit(HttpCreds)
    else if EndsWith(redirection, davPath) then Follow(redirection)
    else if HasShibbolethMarker(redirection) then Emit(Shibboleth)
    else Emit(HttpCreds)
  }

  /** The outcome of a job fed its replies in order: the auth type it emitted
      (None while a re-issued request is still unanswered) and the follow-up
      requests it issued after the first one. */
  datatype Run = Run(auth: Option<AuthType>, followUps: seq<string>)

  /** The specification of a whole job run from a state where `redirects`
      hops were already followed: each reply answers the request in flight. */
  function RunFrom(redirects: nat, maxRedirects: nat, davPath: string, replies: seq<Reply>): Run
    decreases |replies|
  {
    if replies == [] then Run(None, [])
    else match Decide(redirects, maxRedirects, davPath, replies[0])
      case Emit(a) => Run(Some(a), [])
      case Follow(t) =>
        var rest := RunFrom(redirects + 1, maxRedirects, davPath, replies[1..]);
        Run(rest.auth, [t] + rest.followUps)
  }

  /** A run resumed at the `i`-th reply after the follow-ups `done`. */
  function Resume(maxRedirects: nat, davPath: string, replies: seq<Reply>, i: nat, done: seq<string>): Run
    requires i <= |replies|
  {
    var rest := RunFrom(i, maxRedirects, davPath, replies[i..]);
    Run(rest.auth, done + rest.followUps)
  }

  /** Resuming at the `i`-th reply takes that reply's step: an emitted auth
      type ends the run with the follow-ups so far, a followed target joins
      them and the run resumes at the next reply. */
  lemma ResumeStep(maxRedirects: nat, davPath: string, replies: seq<Reply>, i: nat, done: seq<string>)
    requires i < |replies|
    ensures match Decide(i, maxRedirects, davPath, replies[i])
      case Emit(a) => Resume(maxRedirects, davPath, replies, i, done) == Run(Some(a), done)
      case Follow(t) =>
        Resume(maxRedirects, davPath, replies, i, done) == Resume(maxRedirects, davPath, replies, i + 1, done + [t])
  {
    assert replies[i..][0] == replies[i] && replies[i..][1..] == replies[i + 1..];
    match Decide(i, maxRedirects, davPath, replies[i])
    case Emit(a) =>
      assert done + [] == done;
    case Follow(t) =>
      var next := RunFrom(i + 1, maxRedirects, davPath, replies[i + 1..]);
      assert done + ([t] + next.followUps) == (done + [t]) + next.followUps;
  }

  /** A run issues at most maxRedirects follow-ups in all, at most one per
      reply; it is still waiting exactly when every reply it got made it
      re-issue the request. */
  lemma {:induction false} RunBound(redirects: nat, maxRedirects: nat, davPath: string, replies: seq<Reply>)
    requires redirects <= maxRedirects
    ensures var r := RunFrom(redirects, maxRedirects, davPath, replies);
      && |r.followUps| <= maxRedirects - redirects
      && |r.followUps| <= |replies|
      && (r.auth.None? <==> |r.followUps| == |replies|)
    decreases |replies|
  {
    if replies != [] && Decide(redirects, maxRedirects, davPath, replies[0]).Follow? {
      RunBound(redirects + 1, maxRedirects, davPath, replies[1..]);
    }
  }

  /** The `k`-th follow-up goes to the redirect target of the `k`-th reply,
      which is non-empty and ends with the WebDAV path. */
  lemma {:induction false} RunTargets(redirects: nat, maxRedirects: nat, davPath: string, replies: seq<Reply>, k: nat)
    requires k < |RunFrom(redirects, maxRedirects, davPath, replies).followUps|
    ensures k < |replies|
    ensures var t := RunFrom(redirects, maxRedirects, davPath, replies).followUps[k];
      t == replies[k].redirection && t != "" && EndsWith(t, davPath)
    decreases k
  {
    var step := Decide(redirects, maxRedirects, davPath, replies[0]);
    assert step.Follow?;
    if k > 0 {
      RunTargets(redirects + 1, maxRedirects, davPath, replies[1..], k - 1);
      assert replies[1..][k - 1] == replies[k];
    }
  }

  /** A chain of `k` redirects onto the WebDAV path, within the bound, is
      followed hop by hop, and the reply after it decides the auth type. */
  lemma {:induction false} ChainThenDecides(redirects: nat, maxRedirects: nat, davPath: string, replies: seq<Reply>, k: nat)
    requires k < |replies| && redirects + k <= maxRedirects
    requires forall j :: 0 <= j < k ==>
      replies[j].error != AuthenticationRequiredError && replies[j].redirection != "" &&
      EndsWith(replies[j].redirection, davPath)
    requires Decide(redirects + k, maxRedirects, davPath, replies[k]).Emit?
    ensures RunFrom(redirects, maxRedirects, davPath, replies).auth
         == Some(Decide(redirects + k, maxRedirects, davPath, replies[k]).auth)
    ensures RunFrom(redirects, maxRedirects, davPath, replies).followUps
         == seq(k, j requires 0 <= j < k => replies[j].redirection)
    decreases k
  {
    if k > 0 {
      forall j | 0 <= j < k - 1
        ensures replies[1..][j] == replies[j + 1]
      {
      }
      ChainThenDecides(redirects + 1, maxRedirects, davPath, replies[1..], k - 1);
      var rest := RunFrom(redirects + 1, maxRedirects, davPath, replies[1..]);
      assert [replies[0].redirection] + rest.followUps
          == seq(k, j requires 0 <= j < k => replies[j].redirection);
    }
  }

  /** More replies than the hops left to follow always end the run with an
      emitted auth type: a redirect loop cannot keep the job going. */
  lemma RunResolvesPastBound(redirects: nat, maxRedirects: nat, davPath: string, replies: seq<Reply>)
    requires redirects <= maxRedirects
    requires |replies| > maxRedirects - redirects
    ensures RunFrom(redirects, maxRedirects, davPath, replies).auth.Some?
  {
    RunBound(redirects, maxRedirects, davPath, replies);
  }

  /** A server that answers every request with the same redirect onto the
      WebDAV path is followed exactly until the bound, and the job then
      settles on HttpCreds. */
  lemma {:induction false} RedirectLoopGivesHttpCreds(redirects: nat, maxRedirects: nat, davPath: string, loop: Reply, replies: seq<Reply>)
    requires redirects <= maxRedirects
    requires loop.error != AuthenticationRequiredError && loop.redirection != "" && EndsWith(loop.redirection, davPath)
    requires |replies| > maxRedirects - redirects
    requires forall k :: 0 <= k < |replies| ==> replies[k] == loop
    ensures RunFrom(redirects, maxRedirects, davPath, replies)
         == Run(Some(HttpCreds), seq(maxRedirects - redirects, _ => loop.redirection))
    decreases maxRedirects - redirects
  {
    if redirects < maxRedirects {
      RedirectLoopGivesHttpCreds(redirects + 1, maxRedirects, davPath, loop, replies[1..]);
    }
  }

  /** The job object: the redirect counter, the request in flight (the
      WebDAV path at first, then the latest redirect target), the authType
      signals it emitted and whether it scheduled its own deletion. */
  class DetermineAuthTypeJob {
    const maxRedirects: nat
    const davPath: string
    var redirects: nat
    var request: string
    var emitted: seq<AuthType>
    var deleteScheduled: bool

    /** The counter never passes the bound, and the job is done (scheduled
        for deletion) exactly when it has emitted its single auth type. */
    ghost predicate Valid()
      reads this
    {
      redirects <= maxRedirects && |emitted| <= 1 && (deleteScheduled <==> |emitted| == 1)
    }

    constructor (maxRedirects: nat, davPath: string)
      ensures Valid()
      ensures this.maxRedirects == maxRedirects && this.davPath == davPath
      ensures redirects == 0 && request == davPath && emitted == [] && !deleteScheduled
    {
      this.maxRedirects := maxRedirects;
      this.davPath := davPath;
      redirects := 0;
      request := davPath;
      emitted := [];
      deleteScheduled := false;
    }

    /** slotFinished with the job kept alive while a re-issued request is in
        flight: a redirect onto the WebDAV path bumps the counter, replaces
        the request and emits nothing; every other reply emits exactly one
        auth type, leaves the counter and request alone and ends the job. */
    method SlotFinished(reply: Reply)
      requires Valid() && !deleteScheduled
      modifies this
      ensures Valid()
      ensures Decide(old(redirects), maxRedirects, davPath, reply)
           == if deleteScheduled then Emit(emitted[0]) else Follow(request)
      ensures deleteScheduled ==> redirects == old(redirects) && request == old(request)
      ensures !deleteScheduled ==> redirects == old(redirects) + 1 && emitted == []
    {
      var redirection := reply.redirection;
      if redirects >= maxRedirects {
        redirection := "";
      }
      if reply.error == AuthenticationRequiredError || redirection == "" {
        emitted := emitted + [HttpCreds];
      } else if EndsWith(redirection, davPath) {
        redirects := redirects + 1;
        request := redirection;
        return;
      } else if HasShibbolethMarker(redirection) {
        emitted := emitted + [Shibboleth];
      } else {
        emitted := emitted + [HttpCreds];
      }
      deleteScheduled := true;
    }

    /** slotFinished as written: the same decision, but deleteLater() runs
        on every path, also right after the request was re-issued. */
    method SlotFinishedAsWritten(reply: Reply)
      requires !deleteScheduled
      modifies this
      ensures deleteScheduled
      ensures Decide(old(redirects), maxRedirects, davPath, reply).Follow? ==>
        redirects == old(redirects) + 1 && request == reply.redirection && emitted == old(emitted)
      ensures Decide(old(redirects), maxRedirects, davPath, reply).Emit? ==>
        redirects == old(redirects) && request == old(request) &&
        emitted == old(emitted) + [Decide(old(redirects), maxRedirects, davPath, reply).auth]
    {
      var redirection := reply.redirection;
      if redirects >= maxRedirects {
        redirection := "";
      }
      if reply.error == AuthenticationRequiredError || redirection == "" {
        emitted := emitted + [HttpCreds];
      } else if EndsWith(redirection, davPath) {
        redirects := redirects + 1;
        request := redirection;
      } else if HasShibbolethMarker(redirection) {
        emitted := emitted + [Shibboleth];
      } else {
        emitted := emitted + [HttpCreds];
      }
      deleteScheduled := true;
    }
  }

  /** Drives a fresh job with the replies to its requests, one at a time,
      until it ends or the replies run out; the result is the specified run,
      so at most maxRedirects follow-up requests are ever issued. */
  method Discover(maxRedirects: nat, davPath: string, replies: seq<Reply>) returns (run: Run)
    ensures run == RunFrom(0, maxRedirects, davPath, replies)
    ensures |run.followUps| <= maxRedirects
    ensures run.auth.Some? ==> |run.followUps| < |replies|
  {
    var job := new DetermineAuthTypeJob(maxRedirects, davPath);
    var followUps: seq<string> := [];
    var i := 0;
    while i < |replies| && !job.deleteScheduled
      invariant 0 <= i <= |replies|
      invariant job.Valid() && job.maxRedirects == maxRedirects && job.davPath == davPath
      invariant !job.deleteScheduled ==>
        job.redirects == i && |followUps| == i &&
        RunFrom(0, maxRedirects, davPath, replies) == Resume(maxRedirects, davPath, replies, i, followUps)
      invariant job.deleteScheduled ==>
        RunFrom(0, maxRedirects, davPath, replies) == Run(Some(job.emitted[0]), followUps)
      decreases |replies| - i
    {
      ResumeStep(maxRedirects, davPath, replies, i, followUps);
      job.SlotFinished(replies[i]);
      if !job.deleteScheduled {
        followUps := followUps + [job.request];
      }
      i := i + 1;
    }
    assert !job.deleteScheduled ==> replies[i..] == [];
    run := Run(if job.deleteScheduled then Some(job.emitted[0]) else None, followUps);
    RunBound(0, maxRedirects, davPath, replies);
  }

  /** What the job as written does with a redirect it decides to follow: it
      re-issues the request and then deletes itself with nothing emitted, so
      the answer to the re-issued request is never handled and no auth type
      is ever reported. */
  method RedirectAsWritten(maxRedirects: nat, davPath: string, reply: Reply) returns (deleted: bool, emitted: seq<AuthType>, request: string)
    requires Decide(0, maxRedirects, davPath, reply).Follow?
    ensures deleted && emitted == [] && request == reply.redirection
  {
    var job := new DetermineAuthTypeJob(maxRedirects, davPath);
    job.SlotFinishedAsWritten(reply);
    deleted, emitted, request := job.deleteScheduled, job.emitted, job.request;
  }

  /** With the job kept alive, one hop onto the same WebDAV path on another
      host followed by an authentication challenge reports HttpCreds after
      exactly one redirect. */
  lemma OneHopThenChallenge()
    ensures RunFrom(0, 1, "remote.php/webdav/",
                    [Reply(NoError, "https://example.com/remote.php/webdav/"),
                     Reply(AuthenticationRequiredError, "")])
         == Run(Some(HttpCreds), ["https://example.com/remote.php/webdav/"])
  {
    var target := "https://example.com/remote.php/webdav/";
    assert EndsWith(target, "remote.php/webdav/");
    var replies := [Reply(NoError, target), Reply(AuthenticationRequiredError, "")];
    assert replies[1..] == [Reply(AuthenticationRequiredError, "")];
  }

  /** A redirect off the WebDAV path whose target has "SAML" or "wayf", in
      any case, at some position resolves to Shibboleth while hops are left. */
  lemma MarkedRedirectIsShibboleth(redirects: nat, maxRedirects: nat, davPath: string, reply: Reply, i: int)
    requires redirects < maxRedirects && reply.error != AuthenticationRequiredError
    requires !EndsWith(reply.redirection, davPath) && MarkerAt(reply.redirection, i)
    ensures Decide(redirects, maxRedirects, davPath, reply) == Emit(Shibboleth)
  {
    MarkerAnywhere(reply.redirection);
  }
}
