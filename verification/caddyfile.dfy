/** Reading a Caddyfile into the storage configuration, then validating
    what was read. */
module Caddyfile {
  import opened Wrappers
  import opened VaultStorage
  import opened Directives
  import opened Dispense

  /** A usable configuration: a secrets engine path, and at least one way to
      authenticate, a static token or both AppRole ids. Both may be given. */
  predicate Valid(s: Storage) {
    && s.secretsPath != ""
    && (s.token != "" || (s.approleRoleId != "" && s.approleSecretId != ""))
  }

  /** The checks made once the whole Caddyfile has been read. A missing
      secrets path is reported before a missing credential. */
  function Validate(s: Storage): (r: Result<Storage, Error>)
    ensures r.Ok? <==> Valid(s)
    ensures r.Ok? ==> r.value == s
    ensures s.secretsPath == "" ==> r == Err(SecretsPathRequired)
    ensures s.secretsPath != "" && !Valid(s) ==> r == Err(AuthRequired)
    ensures r.Err? ==> Message(r.error).Some?
  {
    if s.secretsPath == "" then Err(SecretsPathRequired)
    else if s.token == "" && (s.approleRoleId == "" || s.approleSecretId == "") then Err(AuthRequired)
    else Ok(s)
  }

  /** The whole operation: read every segment into `s`, then validate. */
  function Unmarshal(s: Storage, segs: seq<Segment>, p: Parsers): (r: Result<Storage, Error>)
    ensures r.Ok? <==> AllDecode(Steps(segs), p) && Valid(Run(s, Steps(segs), p).value)
    ensures r.Ok? ==> Valid(r.value) && r == Run(s, Steps(segs), p)
    ensures !AllDecode(Steps(segs), p) ==> r == Run(s, Steps(segs), p)
    ensures AllDecode(Steps(segs), p) && !Valid(Run(s, Steps(segs), p).value) ==>
              r == Err(if Run(s, Steps(segs), p).value.secretsPath == "" then SecretsPathRequired
                       else AuthRequired)
  {
    var t :- Run(s, Steps(segs), p);
    Validate(t)
  }

  /** The reading loop as the module performs it: for each segment, take the
      address argument and parse it, then walk the block line by line through
      the directive switch, returning the first error; validate at the end. */
  method UnmarshalCaddyfile(s0: Storage, segs: seq<Segment>, p: Parsers) returns (r: Result<Storage, Error>)
    ensures r == Unmarshal(s0, segs, p)
  {
    var s := s0;
    var i := 0;
    while i < |segs|
      invariant 0 <= i <= |segs|
      invariant Run(s0, Steps(segs[..i]), p) == Ok(s)
    {
      var seg := segs[i];
      var header := Header(seg.head, seg.address);
      SplitAtHeader(segs, i);
      if seg.address.None? {
        r := Err(ArgErr(seg.head));
        RunStopsAt(s0, Steps(segs[..i]), header, EntrySteps(seg.entries) + Steps(segs[i + 1..]), p);
        return;
      }
      var parsed := p.parseUrl(seg.address.value);
      if parsed.Err? {
        r := Err(UrlError(parsed.error));
        RunStopsAt(s0, Steps(segs[..i]), header, EntrySteps(seg.entries) + Steps(segs[i + 1..]), p);
        return;
      }
      RunStep(s0, Steps(segs[..i]), header, s, p);
      ReadBeforeStart(segs, i);
      s := Set(s, SetUrl(parsed.value));
      var j := 0;
      while j < |seg.entries|
        invariant 0 <= j <= |seg.entries|
        invariant Run(s0, ReadBefore(segs, i, j), p) == Ok(s)
      {
        var entry := seg.entries[j];
        var decoded := Decode(entry, p);
        if decoded.Err? {
          r := Err(decoded.error);
          SplitAtLine(segs, i, j);
          RunStopsAt(s0, ReadBefore(segs, i, j), Directive(entry),
                     EntrySteps(seg.entries[j + 1..]) + Steps(segs[i + 1..]), p);
          return;
        }
        RunStep(s0, ReadBefore(segs, i, j), Directive(entry), s, p);
        ReadBeforeNext(segs, i, j);
        s := Set(s, decoded.value);
        j := j + 1;
      }
      ReadBeforeEnd(segs, i);
      i := i + 1;
    }
    assert segs[..i] == segs;
    r := Validate(s);
  }

  /* ---------------- Properties of the whole operation ---------------- */

  /** An empty Caddyfile never yields a configuration: the secrets path
      check fails first, with the text `secret_path is required`. */
  lemma EmptyCaddyfileFails(p: Parsers)
    ensures Unmarshal(Zero, [], p) == Err(SecretsPathRequired)
    ensures Message(Unmarshal(Zero, [], p).error) == Some("secret_path is required")
  {
  }

  /** When reading succeeds but the secrets path is empty, that is the
      error, whatever the credentials. */
  lemma SecretsPathCheckedFirst(s: Storage, segs: seq<Segment>, p: Parsers)
    requires Run(s, Steps(segs), p).Ok?
    requires Run(s, Steps(segs), p).value.secretsPath == ""
    ensures Unmarshal(s, segs, p) == Err(SecretsPathRequired)
  {
  }

  /** When reading succeeds with a secrets path but without a token or both
      AppRole ids, the credential error is the result. */
  lemma MissingCredentialRejected(s: Storage, segs: seq<Segment>, p: Parsers)
    requires Run(s, Steps(segs), p).Ok?
    requires Run(s, Steps(segs), p).value.secretsPath != ""
    requires !Valid(Run(s, Steps(segs), p).value)
    ensures Unmarshal(s, segs, p) == Err(AuthRequired)
    ensures Message(Unmarshal(s, segs, p).error) == Some(AuthRequiredText)
  {
  }

  /** Validation asks for at least one credential, not exactly one. */
  lemma TokenAndAppRoleTogetherAccepted(s: Storage)
    requires s.secretsPath != "" && s.token != ""
    requires s.approleRoleId != "" && s.approleSecretId != ""
    ensures Validate(s) == Ok(s)
  {
  }

  /** Last one wins, for the whole operation: in an accepted configuration
      each field holds the value of the last line that set it. */
  lemma UnmarshalLastWins(s: Storage, segs: seq<Segment>, p: Parsers, r: Storage)
    requires Unmarshal(s, segs, p) == Ok(r)
    ensures forall f :: Get(r, f) == Latest(Steps(segs), p, f, Get(s, f))
  {
    forall f ensures Get(r, f) == Latest(Steps(segs), p, f, Get(s, f)) {
      RunLastWins(s, Steps(segs), p, f);
    }
  }

  /** A failing line ends the reading with its own error, whatever comes
      after it, including lines that would fail validation. */
  lemma UnmarshalStopsAtBadLine(s: Storage, before: seq<Segment>, seg: Segment, j: nat,
                                after: seq<Segment>, p: Parsers)
    requires Run(s, Steps(before), p).Ok?
    requires seg.address.Some? && p.parseUrl(seg.address.value).Ok?
    requires j < |seg.entries|
    requires forall k :: 0 <= k < j ==> Decode(seg.entries[k], p).Ok?
    requires Decode(seg.entries[j], p).Err?
    ensures Unmarshal(s, before + [seg] + after, p) == Err(Decode(seg.entries[j], p).error)
  {
    RunStopsAtBadLine(s, before, seg, j, after, p);
  }

  /** The reading half of `UnmarshalStopsAtBadLine`. */
  lemma RunStopsAtBadLine(s: Storage, before: seq<Segment>, seg: Segment, j: nat,
                          after: seq<Segment>, p: Parsers)
    requires Run(s, Steps(before), p).Ok?
    requires seg.address.Some? && p.parseUrl(seg.address.value).Ok?
    requires j < |seg.entries|
    requires forall k :: 0 <= k < j ==> Decode(seg.entries[k], p).Ok?
    requires Decode(seg.entries[j], p).Err?
    ensures Run(s, Steps(before + [seg] + after), p) == Err(Decode(seg.entries[j], p).error)
  {
    var good := [Header(seg.head, seg.address)] + EntrySteps(seg.entries[..j]);
    GoodPrefixDecodes(seg, j, p);
    RunAppend(s, Steps(before), good, p);
    StepsAroundLine(before, seg, j, after);
    assert Steps(before) + [Header(seg.head, seg.address)] + EntrySteps(seg.entries[..j]) == Steps(before) + good;
    RunStopsAt(s, Steps(before) + good, Directive(seg.entries[j]),
               EntrySteps(seg.entries[j + 1..]) + Steps(after), p);
  }

  /** The header of a segment with a parsable address, followed by lines
      that all decode, is read without error. */
  lemma GoodPrefixDecodes(seg: Segment, j: nat, p: Parsers)
    requires seg.address.Some? && p.parseUrl(seg.address.value).Ok?
    requires j <= |seg.entries|
    requires forall k :: 0 <= k < j ==> Decode(seg.entries[k], p).Ok?
    ensures AllDecode([Header(seg.head, seg.address)] + EntrySteps(seg.entries[..j]), p)
  {
    var good := [Header(seg.head, seg.address)] + EntrySteps(seg.entries[..j]);
    forall k | 0 <= k < |good| ensures DecodeStep(good[k], p).Ok? {
      if k > 0 {
        assert good[k] == EntrySteps(seg.entries[..j])[k - 1];
      }
    }
  }

  /** A segment without an address argument is an argument error, and
      nothing after it is read. */
  lemma UnmarshalMissingAddress(s: Storage, before: seq<Segment>, seg: Segment,
                                after: seq<Segment>, p: Parsers)
    requires Run(s, Steps(before), p).Ok?
    requires seg.address.None?
    ensures Unmarshal(s, before + [seg] + after, p) == Err(ArgErr(seg.head))
  {
    var segs := before + [seg] + after;
    var i := |before|;
    assert segs[..i] == before && segs[i] == seg && segs[i + 1..] == after;
    SplitAtHeader(segs, i);
    RunStopsAt(s, Steps(before), Header(seg.head, seg.address), EntrySteps(seg.entries) + Steps(after), p);
  }

  /** A segment whose address does not parse as a URL ends the reading with
      the parser's error, and nothing after it is read. */
  lemma UnmarshalBadAddress(s: Storage, before: seq<Segment>, seg: Segment,
                            after: seq<Segment>, p: Parsers)
    requires Run(s, Steps(before), p).Ok?
    requires seg.address.Some? && p.parseUrl(seg.address.value).Err?
    ensures Unmarshal(s, before + [seg] + after, p) == Err(UrlError(p.parseUrl(seg.address.value).error))
  {
    var segs := before + [seg] + after;
    var i := |before|;
    assert segs[..i] == before && segs[i] == seg && segs[i + 1..] == after;
    SplitAtHeader(segs, i);
    RunStopsAt(s, Steps(before), Header(seg.head, seg.address), EntrySteps(seg.entries) + Steps(after), p);
  }

  /** Reading a Caddyfile a second time over its own result gives the same
      configuration. */
  lemma UnmarshalIdempotent(s: Storage, segs: seq<Segment>, p: Parsers, r: Storage)
    requires Unmarshal(s, segs, p) == Ok(r)
    ensures Unmarshal(r, segs, p) == Ok(r)
  {
    RunIdempotent(s, Steps(segs), p);
  }

  /** Starting from the zero value, an accepted Caddyfile has at least one
      segment, so the address is always set. */
  lemma AcceptedFromZeroHasAddress(segs: seq<Segment>, p: Parsers, r: Storage)
    requires Unmarshal(Zero, segs, p) == Ok(r)
    ensures |segs| > 0
    ensures r.url.Some?
  {
    var steps := Steps(segs);
    assert segs != [];
    assert steps[0] == Header(segs[0].head, segs[0].address);
    var t := Set(Zero, DecodeStep(steps[0], p).value);
    assert t.url.Some? by {
      assert Get(t, Address) == ValueOf(DecodeStep(steps[0], p).value);
    }
    assert Run(Zero, steps, p) == Run(t, steps[1..], p);
    RunKeepsAddress(t, steps[1..], p);
  }

  /* ---------------- The accessors over a read configuration ---------------- */

  /** The text a defaulting accessor reports for a field holding `v`. */
  function TextOr(v: Value, default: string): string {
    if v.Text? && v.t != "" then v.t else default
  }

  /** The duration a defaulting accessor reports for a field holding `v`. */
  function SpanOr(v: Value, default: Duration): Duration {
    if v.Span? && v.d.Some? then v.d.value else default
  }

  /** From a Caddyfile read into the zero value, each defaulting accessor
      reports the argument of the last line that set its field (when that
      is non-empty, for the paths), and the default otherwise. */
  lemma AccessorsOfReadConfig(segs: seq<Segment>, p: Parsers, r: Storage)
    requires Unmarshal(Zero, segs, p) == Ok(r)
    ensures GetApproleLoginPath(r)
         == TextOr(Latest(Steps(segs), p, ApproleLoginPath, Text("")), DefaultApproleLoginPath)
    ensures GetApproleLogoutPath(r)
         == TextOr(Latest(Steps(segs), p, ApproleLogoutPath, Text("")), DefaultApproleLogoutPath)
    ensures GetLockTimeout(r)
         == SpanOr(Latest(Steps(segs), p, LockTimeout, Span(None)), DefaultLockTimeout)
    ensures GetLockPollingInterval(r)
         == SpanOr(Latest(Steps(segs), p, LockPollingInterval, Span(None)), DefaultLockPollingInterval)
  {
    RunLastWins(Zero, Steps(segs), p, ApproleLoginPath);
    RunLastWins(Zero, Steps(segs), p, ApproleLogoutPath);
    RunLastWins(Zero, Steps(segs), p, LockTimeout);
    RunLastWins(Zero, Steps(segs), p, LockPollingInterval);
  }

  /** No line of `es` is a `lock_timeout` directive. */
  ghost predicate NoLockTimeoutLine(es: seq<Entry>) {
    forall m :: 0 <= m < |es| ==> es[m].name != "lock_timeout"
  }

  /** Only a `lock_timeout` line assigns the lock timeout. */
  lemma EntryStepsKeepLockTimeout(es: seq<Entry>, p: Parsers)
    requires NoLockTimeoutLine(es)
    ensures NoneSets(EntrySteps(es), p, LockTimeout)
  {
    forall i | 0 <= i < |es|
      ensures !(DecodeStep(EntrySteps(es)[i], p).Ok? && FieldOf(DecodeStep(EntrySteps(es)[i], p).value) == LockTimeout)
    {
      assert EntrySteps(es)[i] == Directive(es[i]);
    }
  }

  lemma {:induction false} StepsKeepLockTimeout(segs: seq<Segment>, p: Parsers)
    requires forall k :: 0 <= k < |segs| ==> NoLockTimeoutLine(segs[k].entries)
    ensures NoneSets(Steps(segs), p, LockTimeout)
    decreases |segs|
  {
    if segs != [] {
      var h := [Header(segs[0].head, segs[0].address)];
      assert NoneSets(h, p, LockTimeout) by {
        assert h[0] == Header(segs[0].head, segs[0].address);
      }
      EntryStepsKeepLockTimeout(segs[0].entries, p);
      NoneSetsAppend(h, EntrySteps(segs[0].entries), p, LockTimeout);
      StepsKeepLockTimeout(segs[1..], p);
      NoneSetsAppend(SegmentSteps(segs[0]), Steps(segs[1..]), p, LockTimeout);
    }
  }

  /** A `lock_timeout` line takes effect when it is the last one: in an
      accepted Caddyfile read into the zero value, its argument parses and
      the lock timeout is that duration, whatever comes before it and
      whatever other lines follow it. */
  lemma LockTimeoutLineTakesEffect(segsBefore: seq<Segment>, head: string, address: Option<string>,
                                   before: seq<Entry>, arg: string, after: seq<Entry>,
                                   segsAfter: seq<Segment>, p: Parsers, r: Storage)
    requires NoLockTimeoutLine(after)
    requires forall k :: 0 <= k < |segsAfter| ==> NoLockTimeoutLine(segsAfter[k].entries)
    requires Unmarshal(Zero, segsBefore + [Segment(head, address, before + [Entry("lock_timeout", Some(arg))] + after)]
                             + segsAfter, p) == Ok(r)
    ensures p.parseDuration(arg).Ok?
    ensures GetLockTimeout(r) == p.parseDuration(arg).value
  {
    var line := Entry("lock_timeout", Some(arg));
    var es := before + [line] + after;
    var seg := Segment(head, address, es);
    var segs := segsBefore + [seg] + segsAfter;
    var j := |before|;
    assert es[..j] == before && es[j] == line && es[j + 1..] == after;
    StepsAroundLine(segsBefore, seg, j, segsAfter);
    var pre := Steps(segsBefore) + [Header(head, address)] + EntrySteps(before);
    var post := EntrySteps(after) + Steps(segsAfter);
    assert Steps(segs) == pre + [Directive(line)] + post;
    assert DecodeStep(Directive(line), p).Ok? by {
      assert Steps(segs)[|pre|] == Directive(line);
    }
    assert Interprets(Decode(line, p), SpanKind, arg, p);
    EntryStepsKeepLockTimeout(after, p);
    StepsKeepLockTimeout(segsAfter, p);
    NoneSetsAppend(EntrySteps(after), Steps(segsAfter), p, LockTimeout);
    LatestAfterLastSetter(pre, Directive(line), post, p, LockTimeout, Span(None));
    UnmarshalLastWins(Zero, segs, p, r);
    assert Get(r, LockTimeout) == Latest(Steps(segs), p, LockTimeout, Span(None));
  }

  /* ---------------- Configurations built directly ---------------- */

  /** A configuration built as a literal, the way the integration suite
      builds one, bypasses `Validate` entirely; the accessors still apply,
      and report the literal's own lock settings. */
  lemma SuiteConfiguration(url: Url)
    ensures var s := Storage(Some(url), "dead-beef", "", "", "", "", "secrets", "certificates",
                             false, Some(15 * Second), Some(5 * Second));
            && Valid(s)
            && GetLockTimeout(s) == 15 * Second
            && GetLockPollingInterval(s) == DefaultLockPollingInterval
            && GetApproleLoginPath(s) == "auth/approle/login"
            && GetApproleLogoutPath(s) == "auth/token/revoke-self"
  {
  }

  /** Nothing stops a directly built configuration from being one the
      Caddyfile path would reject: the zero value has no secrets path and no
      credential, yet every accessor answers. */
  lemma UnvalidatedConfigurationStillAnswers()
    ensures !Valid(Zero) && Validate(Zero) == Err(SecretsPathRequired)
    ensures GetLockTimeout(Zero) == 300 * Second && GetLockPollingInterval(Zero) == 5 * Second
  {
  }
}
