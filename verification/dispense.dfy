/** The token stream of a Caddyfile, as the module reads it: a sequence of
    segments, each a header line with an optional address followed by a
    block of directive lines. The stream is flattened into steps, each of
    which either fails or performs one assignment, and reading the stream
    is a left-to-right fold over the steps that stops at the first failure. */
module Dispense {
  import opened Wrappers
  import opened VaultStorage
  import opened Directives

  /** One `storage vault <address> { ... }` occurrence: `head` is the
      module-name token, `address` the argument on the same line, if any. */
  datatype Segment = Segment(head: string, address: Option<string>, entries: seq<Entry>)

  /** A unit of reading: a segment header, or one directive line. */
  datatype Step = Header(head: string, address: Option<string>) | Directive(entry: Entry)

  /** What a step does to the configuration. A header needs its address and
      sets the URL from it; a directive is decoded by the directive switch. */
  function DecodeStep(step: Step, p: Parsers): (r: Result<Setting, Error>)
    ensures step.Header? && step.address.None? ==> r == Err(ArgErr(step.head))
    ensures step.Header? && step.address.Some? ==> Interprets(r, AddressKind, step.address.value, p)
    ensures step.Header? && r.Ok? ==> FieldOf(r.value) == Address
    ensures step.Directive? && r.Ok? ==> FieldOf(r.value) != Address
  {
    match step
    case Header(head, address) =>
      (match address
       case None => Err(ArgErr(head))
       case Some(a) =>
         (match p.parseUrl(a)
          case Ok(u) => Ok(SetUrl(u))
          case Err(m) => Err(UrlError(m))))
    case Directive(e) =>
      DirectivesNeverSetAddress(e, p);
      Decode(e, p)
  }

  function EntrySteps(es: seq<Entry>): (r: seq<Step>)
    ensures |r| == |es|
  {
    seq(|es|, i requires 0 <= i < |es| => Directive(es[i]))
  }

  function SegmentSteps(seg: Segment): seq<Step> {
    [Header(seg.head, seg.address)] + EntrySteps(seg.entries)
  }

  /** The steps of a whole token stream, in reading order. */
  function Steps(segs: seq<Segment>): seq<Step> {
    if segs == [] then [] else SegmentSteps(segs[0]) + Steps(segs[1..])
  }

  /** Every step of `steps` decodes without error. */
  ghost predicate AllDecode(steps: seq<Step>, p: Parsers) {
    forall i :: 0 <= i < |steps| ==> DecodeStep(steps[i], p).Ok?
  }

  /** Performs the steps in order starting from `s`, stopping at the first
      one that fails. It succeeds exactly when every step decodes. */
  function Run(s: Storage, steps: seq<Step>, p: Parsers): (r: Result<Storage, Error>)
    ensures r.Ok? <==> AllDecode(steps, p)
    decreases |steps|
  {
    if steps == [] then Ok(s)
    else
      match DecodeStep(steps[0], p)
      case Err(e) => Err(e)
      case Ok(st) =>
        var r := Run(Set(s, st), steps[1..], p);
        assert r.Ok? <==> AllDecode(steps, p) by {
          if AllDecode(steps[1..], p) {
            forall i | 0 <= i < |steps| ensures DecodeStep(steps[i], p).Ok? {
              if i > 0 { assert steps[i] == steps[1..][i - 1]; }
            }
          } else {
            var i :| 0 <= i < |steps[1..]| && DecodeStep(steps[1..][i], p).Err?;
            assert steps[1..][i] == steps[i + 1];
          }
        }
        r
  }

  /** Continues a partial reading with more steps, passing an error through. */
  function Then(r: Result<Storage, Error>, steps: seq<Step>, p: Parsers): Result<Storage, Error> {
    match r
    case Ok(t) => Run(t, steps, p)
    case Err(e) => Err(e)
  }

  /** Reading a concatenation is reading the first part, then the second from
      where the first left off; an error in the first part is final. */
  lemma {:induction false} RunAppend(s: Storage, a: seq<Step>, b: seq<Step>, p: Parsers)
    ensures Run(s, a + b, p) == Then(Run(s, a, p), b, p)
    decreases |a|
  {
    if a == [] {
      assert a + b == b;
    } else {
      assert (a + b)[0] == a[0];
      assert (a + b)[1..] == a[1..] + b;
      match DecodeStep(a[0], p)
      case Err(e) =>
      case Ok(st) =>
        RunAppend(Set(s, st), a[1..], b, p);
    }
  }

  /** Reading stops at a failing step: whatever follows it is never read. */
  lemma RunStopsAt(s: Storage, pre: seq<Step>, x: Step, post: seq<Step>, p: Parsers)
    requires Run(s, pre, p).Ok?
    requires DecodeStep(x, p).Err?
    ensures Run(s, pre + [x] + post, p) == Err(DecodeStep(x, p).error)
  {
    assert pre + [x] + post == pre + ([x] + post);
    RunAppend(s, pre, [x] + post, p);
    assert ([x] + post)[0] == x;
  }

  /** The error of a failed reading is the error of the first step that
      fails. */
  lemma RunFirstError(s: Storage, steps: seq<Step>, k: nat, p: Parsers)
    requires k < |steps|
    requires DecodeStep(steps[k], p).Err?
    requires forall j :: 0 <= j < k ==> DecodeStep(steps[j], p).Ok?
    ensures Run(s, steps, p) == Err(DecodeStep(steps[k], p).error)
  {
    assert AllDecode(steps[..k], p) by {
      forall j | 0 <= j < k ensures DecodeStep(steps[..k][j], p).Ok? {
        assert steps[..k][j] == steps[j];
      }
    }
    assert steps == steps[..k] + [steps[k]] + steps[k + 1..];
    RunStopsAt(s, steps[..k], steps[k], steps[k + 1..], p);
  }

  /** A reference for the outcome of a reading: the value of field `f` left
      by the last step that sets it, scanning from the end; `init` when no
      step sets it. */
  ghost function Latest(steps: seq<Step>, p: Parsers, f: Field, init: Value): Value
    decreases |steps|
  {
    if steps == [] then init
    else
      var last := DecodeStep(steps[|steps| - 1], p);
      if last.Ok? && FieldOf(last.value) == f then ValueOf(last.value)
      else Latest(steps[..|steps| - 1], p, f, init)
  }

  /** Last one wins: after a successful reading every field holds the value
      of the last step that set it, or its starting value if none did. */
  lemma {:induction false} RunLastWins(s: Storage, steps: seq<Step>, p: Parsers, f: Field)
    requires Run(s, steps, p).Ok?
    ensures Get(Run(s, steps, p).value, f) == Latest(steps, p, f, Get(s, f))
    decreases |steps|
  {
    if steps != [] {
      var n := |steps| - 1;
      var pre := steps[..n];
      assert steps == pre + [steps[n]];
      RunAppend(s, pre, [steps[n]], p);
      RunLastWins(s, pre, p, f);
      var t := Run(s, pre, p).value;
      assert Run(t, [steps[n]], p) == Ok(Set(t, DecodeStep(steps[n], p).value));
    }
  }

  /** Whether the starting value of `f` survives to the end of a reading:
      either it does, or the result does not depend on it at all. */
  lemma {:induction false} LatestInit(steps: seq<Step>, p: Parsers, f: Field, i1: Value, i2: Value)
    ensures (Latest(steps, p, f, i1) == i1 && Latest(steps, p, f, i2) == i2)
         || Latest(steps, p, f, i1) == Latest(steps, p, f, i2)
    decreases |steps|
  {
    if steps != [] {
      LatestInit(steps[..|steps| - 1], p, f, i1, i2);
    }
  }

  /** Reading the same steps a second time, starting from what the first
      reading produced, changes nothing: every step is a plain assignment. */
  lemma RunIdempotent(s: Storage, steps: seq<Step>, p: Parsers)
    requires Run(s, steps, p).Ok?
    ensures Run(Run(s, steps, p).value, steps, p) == Run(s, steps, p)
  {
    var r := Run(s, steps, p).value;
    forall f ensures Get(Run(r, steps, p).value, f) == Get(r, f) {
      RunLastWins(s, steps, p, f);
      RunLastWins(r, steps, p, f);
      LatestInit(steps, p, f, Get(s, f), Get(r, f));
    }
    GetExtensional(Run(r, steps, p).value, r);
  }

  /** A directive is overridden by a later one with the same name. */
  lemma LaterDirectiveOverrides(s: Storage, first: Entry, second: Entry, p: Parsers)
    requires first.name == second.name
    requires Decode(first, p).Ok? && Decode(second, p).Ok?
    ensures Run(s, [Directive(first), Directive(second)], p) == Run(s, [Directive(second)], p)
  {
  }

  /** Once an address has been set, reading further steps keeps one set. */
  lemma {:induction false} RunKeepsAddress(s: Storage, steps: seq<Step>, p: Parsers)
    requires s.url.Some?
    requires Run(s, steps, p).Ok?
    ensures Run(s, steps, p).value.url.Some?
    decreases |steps|
  {
    if steps != [] {
      var st := DecodeStep(steps[0], p).value;
      var t := Set(s, st);
      assert Get(t, Address).u.Some? by {
        if FieldOf(st) != Address {
          assert Get(t, Address) == Get(s, Address);
        }
      }
      RunKeepsAddress(t, steps[1..], p);
    }
  }

  /** Flattening distributes over concatenation of segment sequences. */
  lemma {:induction false} StepsAppend(a: seq<Segment>, b: seq<Segment>)
    ensures Steps(a + b) == Steps(a) + Steps(b)
    decreases |a|
  {
    if a == [] {
      assert a + b == b;
    } else {
      assert (a + b)[0] == a[0];
      assert (a + b)[1..] == a[1..] + b;
      StepsAppend(a[1..], b);
    }
  }

  lemma StepsOne(x: Segment)
    ensures Steps([x]) == SegmentSteps(x)
  {
    assert [x][1..] == [];
  }

  /** The steps of segment `i` follow those of the segments before it. */
  lemma StepsExtend(segs: seq<Segment>, i: nat)
    requires i < |segs|
    ensures Steps(segs[..i + 1]) == Steps(segs[..i]) + SegmentSteps(segs[i])
  {
    StepsOne(segs[i]);
    assert segs[..i + 1] == segs[..i] + [segs[i]];
    StepsAppend(segs[..i], [segs[i]]);
  }

  /** The steps of segment `i` sit between those of the earlier and the
      later segments. */
  lemma StepsAt(segs: seq<Segment>, i: nat)
    requires i < |segs|
    ensures Steps(segs) == Steps(segs[..i]) + SegmentSteps(segs[i]) + Steps(segs[i + 1..])
  {
    SliceJoin(segs, i);
    StepsJoin(segs[..i], segs[i], segs[i + 1..]);
  }

  lemma SliceJoin(segs: seq<Segment>, i: nat)
    requires i < |segs|
    ensures segs == segs[..i] + [segs[i]] + segs[i + 1..]
  {
  }

  /** The steps of the segments around one segment `x`. */
  lemma StepsJoin(pre: seq<Segment>, x: Segment, post: seq<Segment>)
    ensures Steps(pre + [x] + post) == Steps(pre) + SegmentSteps(x) + Steps(post)
  {
    assert pre + [x] + post == pre + ([x] + post);
    StepsAppend(pre, [x] + post);
    StepsCons([x] + post);
    assert ([x] + post)[0] == x && ([x] + post)[1..] == post;
  }

  /** One unfolding of `Steps`. */
  lemma StepsCons(segs: seq<Segment>)
    requires segs != []
    ensures Steps(segs) == SegmentSteps(segs[0]) + Steps(segs[1..])
  {
  }

  /** The steps of a segment, split at the `j`-th line of its block. */
  lemma SegmentStepsAt(seg: Segment, j: nat)
    requires j < |seg.entries|
    ensures SegmentSteps(seg) == [Header(seg.head, seg.address)] + EntrySteps(seg.entries[..j])
                                 + [Directive(seg.entries[j])] + EntrySteps(seg.entries[j + 1..])
  {
  }

  /** The steps read before line `j` of segment `i`: every earlier segment,
      the header of segment `i`, and the first `j` lines of its block. */
  function ReadBefore(segs: seq<Segment>, i: nat, j: nat): seq<Step>
    requires i < |segs| && j <= |segs[i].entries|
  {
    Steps(segs[..i]) + [Header(segs[i].head, segs[i].address)] + EntrySteps(segs[i].entries[..j])
  }

  lemma ReadBeforeStart(segs: seq<Segment>, i: nat)
    requires i < |segs|
    ensures ReadBefore(segs, i, 0) == Steps(segs[..i]) + [Header(segs[i].head, segs[i].address)]
  {
    assert EntrySteps(segs[i].entries[..0]) == [];
  }

  lemma ReadBeforeNext(segs: seq<Segment>, i: nat, j: nat)
    requires i < |segs| && j < |segs[i].entries|
    ensures ReadBefore(segs, i, j + 1) == ReadBefore(segs, i, j) + [Directive(segs[i].entries[j])]
  {
  }

  lemma ReadBeforeEnd(segs: seq<Segment>, i: nat)
    requires i < |segs|
    ensures ReadBefore(segs, i, |segs[i].entries|) == Steps(segs[..i + 1])
  {
    assert segs[i].entries[..|segs[i].entries|] == segs[i].entries;
    StepsExtend(segs, i);
  }

  /** All steps, split at the header of segment `i`. */
  lemma SplitAtHeader(segs: seq<Segment>, i: nat)
    requires i < |segs|
    ensures Steps(segs) == Steps(segs[..i]) + [Header(segs[i].head, segs[i].address)]
                           + (EntrySteps(segs[i].entries) + Steps(segs[i + 1..]))
  {
    StepsAt(segs, i);
  }

  /** All steps, split at line `j` of segment `i`. */
  lemma SplitAtLine(segs: seq<Segment>, i: nat, j: nat)
    requires i < |segs| && j < |segs[i].entries|
    ensures Steps(segs) == ReadBefore(segs, i, j) + [Directive(segs[i].entries[j])]
                           + (EntrySteps(segs[i].entries[j + 1..]) + Steps(segs[i + 1..]))
  {
    StepsAt(segs, i);
    SegmentStepsAt(segs[i], j);
    var a, h, g := Steps(segs[..i]), [Header(segs[i].head, segs[i].address)], EntrySteps(segs[i].entries[..j]);
    var x, e, b := [Directive(segs[i].entries[j])], EntrySteps(segs[i].entries[j + 1..]), Steps(segs[i + 1..]);
    assert Steps(segs) == a + (h + g + x + e) + b;
    assert a + (h + g + x + e) + b == (a + h + g) + x + (e + b);
  }

  /** One more successful step extends a successful reading by its
      assignment. */
  lemma RunStep(s0: Storage, pre: seq<Step>, x: Step, s: Storage, p: Parsers)
    requires Run(s0, pre, p) == Ok(s)
    requires DecodeStep(x, p).Ok?
    ensures Run(s0, pre + [x], p) == Ok(Set(s, DecodeStep(x, p).value))
  {
    RunAppend(s0, pre, [x], p);
    var st := DecodeStep(x, p).value;
    assert [x][0] == x && [x][1..] == [];
    assert Run(s, [x], p) == Run(Set(s, st), [], p);
  }

  /** No step of `steps` assigns field `f`. */
  ghost predicate NoneSets(steps: seq<Step>, p: Parsers, f: Field) {
    forall i :: 0 <= i < |steps| ==>
      !(DecodeStep(steps[i], p).Ok? && FieldOf(DecodeStep(steps[i], p).value) == f)
  }

  lemma NoneSetsAppend(a: seq<Step>, b: seq<Step>, p: Parsers, f: Field)
    requires NoneSets(a, p, f) && NoneSets(b, p, f)
    ensures NoneSets(a + b, p, f)
  {
    forall i | 0 <= i < |a + b|
      ensures !(DecodeStep((a + b)[i], p).Ok? && FieldOf(DecodeStep((a + b)[i], p).value) == f)
    {
      if i >= |a| { assert (a + b)[i] == b[i - |a|]; }
    }
  }

  /** Steps that do not assign `f` do not change which value it ends with. */
  lemma {:induction false} LatestSkips(pre: seq<Step>, post: seq<Step>, p: Parsers, f: Field, init: Value)
    requires NoneSets(post, p, f)
    ensures Latest(pre + post, p, f, init) == Latest(pre, p, f, init)
    decreases |post|
  {
    if post == [] {
      assert pre + post == pre;
    } else {
      var n := |post| - 1;
      var all := pre + post;
      assert all[..|all| - 1] == pre + post[..n];
      assert all[|all| - 1] == post[n];
      assert NoneSets(post[..n], p, f) by {
        forall i | 0 <= i < n
          ensures !(DecodeStep(post[..n][i], p).Ok? && FieldOf(DecodeStep(post[..n][i], p).value) == f)
        {
          assert post[..n][i] == post[i];
        }
      }
      LatestSkips(pre, post[..n], p, f, init);
    }
  }

  /** After the last step that assigns `f`, the field keeps that step's
      value. */
  lemma LatestAfterLastSetter(pre: seq<Step>, x: Step, post: seq<Step>, p: Parsers, f: Field, init: Value)
    requires DecodeStep(x, p).Ok? && FieldOf(DecodeStep(x, p).value) == f
    requires NoneSets(post, p, f)
    ensures Latest(pre + [x] + post, p, f, init) == ValueOf(DecodeStep(x, p).value)
  {
    LatestSkips(pre + [x], post, p, f, init);
    assert (pre + [x])[..|pre + [x]| - 1] == pre;
  }

  /** All steps of `before + [seg] + after`, split at line `j` of `seg`. */
  lemma StepsAroundLine(before: seq<Segment>, seg: Segment, j: nat, after: seq<Segment>)
    requires j < |seg.entries|
    ensures Steps(before + [seg] + after)
         == (Steps(before) + [Header(seg.head, seg.address)] + EntrySteps(seg.entries[..j]))
            + [Directive(seg.entries[j])]
            + (EntrySteps(seg.entries[j + 1..]) + Steps(after))
  {
    StepsJoin(before, seg, after);
    SegmentStepsAt(seg, j);
  }
}
