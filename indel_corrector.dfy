/** The indel error corrector (src/ngsep/assembly/AlignmentBasedIndelErrorsCorrector.java):
    for every layout path, the reads aligned to the path's consensus are
    rewritten one by one. Short indels of a read that no called variant
    explains are undone, and short homozygous variants the read does not
    carry are applied. A per-read array of path ids makes sure no read is
    rewritten twice.

    Path finding, alignment to the consensus, variant calling and the
    reverse complement are foreign: each path arrives as a `PathAlignment`
    record and the reverse complement is the function parameter `revComp`.
    Java's `substring` throws on indexes out of range; here it yields
    `None`, and a failure ends the whole correction, as the exception does. */
module IndelCorrector {
  import opened Common

  /** Indels and variants longer than this are never corrected. */
  const MAX_INDEL_LENGTH: int := 3

  /** A variant called on the consensus: its reference span, its genotype
      flags, its reference and alternative alleles and the allele called. */
  datatype Variant = Variant(first: int, last: int, undecided: bool, homozygousReference: bool,
                             heterozygous: bool, refAllele: string, altAllele: string, calledAllele: string)

  /** An indel of a read against the consensus: the read position it is
      keyed by, its reference span, and its length. */
  datatype IndelCall = IndelCall(posRead: int, first: int, last: int, length: int)

  /** A read aligned to a path consensus: the read id, the first aligned
      consensus position, the read's characters as aligned, the strand, the
      indel calls by read position (`None` when the aligner kept none), and
      the consensus-to-read position map. */
  datatype ReadAlignment = ReadAlignment(readNumber: int, first: int, readCharacters: string, negativeStrand: bool,
                                         indelCalls: Option<seq<IndelCall>>, alignedReadPosition: int -> int)

  /** What the foreign stages produce for one path: the consensus, the read
      alignments in consensus order, and the called variants in consensus order. */
  datatype PathAlignment = PathAlignment(rawConsensus: string, alignments: seq<ReadAlignment>, calledVars: seq<Variant>)

  function Abs(x: int): int { if x < 0 then -x else x }

  /** Java's `s.substring(b, e)`; `None` where Java throws. */
  function Substring(s: string, b: int, e: int): (r: Option<string>)
    ensures r.Some? <==> 0 <= b <= e <= |s|
    ensures r.Some? ==> |r.value| == e - b && forall k :: 0 <= k < e - b ==> r.value[k] == s[b + k]
  {
    if 0 <= b <= e <= |s| then Some(s[b..e]) else None
  }

  /** Java's `s.substring(b)`; `None` where Java throws. */
  function Suffix(s: string, b: int): (r: Option<string>)
    ensures r.Some? <==> 0 <= b <= |s|
    ensures r.Some? ==> s == s[..b] + r.value
  {
    if 0 <= b <= |s| then Some(s[b..]) else None
  }

  // ---------------------------------------------------------------------------
  // Active variants

  /** A call takes part in the correction unless it is undecided or
      homozygous for the reference allele. */
  function IsActive(v: Variant): bool
  {
    !v.undecided && !v.homozygousReference
  }

  /** The active variants keep exactly the decided, non-reference calls, in order. */
  lemma ActiveVariantsExact(calledVars: seq<Variant>)
    ensures forall k :: 0 <= k < |Filter(calledVars, IsActive)| ==>
      Filter(calledVars, IsActive)[k] in calledVars
      && !Filter(calledVars, IsActive)[k].undecided && !Filter(calledVars, IsActive)[k].homozygousReference
    ensures forall k :: 0 <= k < |calledVars| && !calledVars[k].undecided && !calledVars[k].homozygousReference ==>
      calledVars[k] in Filter(calledVars, IsActive)
  {
    FilterMembers(calledVars, IsActive);
  }

  /** Collects the active variants in a loop. */
  method FilterVariants(calledVars: seq<Variant>) returns (filteredVars: seq<Variant>)
    ensures filteredVars == Filter(calledVars, IsActive)
  {
    filteredVars := [];
    var i := 0;
    while i < |calledVars|
      invariant 0 <= i <= |calledVars|
      invariant filteredVars == Filter(calledVars[..i], IsActive)
    {
      var call := calledVars[i];
      assert calledVars[..i + 1][..i] == calledVars[..i];
      if !call.undecided && !call.homozygousReference {
        filteredVars := filteredVars + [call];
      }
      i := i + 1;
    }
    assert calledVars[..i] == calledVars;
  }

  // ---------------------------------------------------------------------------
  // The pointer to the next active variant

  /** The pointer moved past every variant ending before `alnFirst`. */
  function AdvanceFrom(vars: seq<Variant>, index: nat, alnFirst: int): (r: nat)
    decreases |vars| - index
  {
    if index < |vars| && vars[index].last < alnFirst then AdvanceFrom(vars, index + 1, alnFirst) else index
  }

  /** The pointer never moves back, every variant it skips ends before the
      alignment starts, and it stops at the first variant that does not. */
  lemma {:induction false} AdvanceFromSpec(vars: seq<Variant>, index: nat, alnFirst: int)
    requires index <= |vars|
    ensures index <= AdvanceFrom(vars, index, alnFirst) <= |vars|
    ensures forall k :: index <= k < AdvanceFrom(vars, index, alnFirst) ==> vars[k].last < alnFirst
    ensures AdvanceFrom(vars, index, alnFirst) < |vars| ==> vars[AdvanceFrom(vars, index, alnFirst)].last >= alnFirst
    decreases |vars| - index
  {
    if index < |vars| && vars[index].last < alnFirst {
      AdvanceFromSpec(vars, index + 1, alnFirst);
    }
  }

  /** Moves the pointer over the variants that end before the alignment. */
  method AdvanceActive(filteredVars: seq<Variant>, indexNextActive: nat, alnFirst: int) returns (index: nat)
    ensures index == AdvanceFrom(filteredVars, indexNextActive, alnFirst)
  {
    index := indexNextActive;
    while index < |filteredVars|
      invariant indexNextActive <= index
      invariant AdvanceFrom(filteredVars, index, alnFirst) == AdvanceFrom(filteredVars, indexNextActive, alnFirst)
      decreases |filteredVars| - index
    {
      if filteredVars[index].last < alnFirst {
        index := index + 1;
      } else {
        break;
      }
    }
  }

  // ---------------------------------------------------------------------------
  // Whether an indel is an error

  /** An indel is corrected when the first active variant from `index` on
      that ends at or after the indel's start begins after the indel's end,
      or when there is no such variant. */
  function CorrectIndel(vars: seq<Variant>, index: nat, indel: IndelCall): bool
    decreases |vars| - index
  {
    if index >= |vars| then true
    else if vars[index].last >= indel.first then vars[index].first > indel.last
    else CorrectIndel(vars, index + 1, indel)
  }

  /** `vars[k]` is the first variant from `index` on ending at or after `pos`. */
  ghost predicate FirstReaching(vars: seq<Variant>, index: nat, k: int, pos: int)
  {
    index <= k < |vars| && vars[k].last >= pos && forall m :: index <= m < k ==> vars[m].last < pos
  }

  /** The decision in declarative terms: the first active variant from
      `index` on that reaches the indel's start, if any, begins after the
      indel's end. */
  lemma {:induction false} CorrectIndelSpec(vars: seq<Variant>, index: nat, indel: IndelCall)
    ensures CorrectIndel(vars, index, indel) <==>
      forall k :: FirstReaching(vars, index, k, indel.first) ==> vars[k].first > indel.last
    decreases |vars| - index
  {
    if index < |vars| {
      if vars[index].last < indel.first {
        CorrectIndelSpec(vars, index + 1, indel);
        forall k | FirstReaching(vars, index, k, indel.first)
          ensures FirstReaching(vars, index + 1, k, indel.first)
        {
        }
        forall k | FirstReaching(vars, index + 1, k, indel.first)
          ensures FirstReaching(vars, index, k, indel.first)
        {
        }
      } else {
        assert FirstReaching(vars, index, index, indel.first);
        forall k | FirstReaching(vars, index, k, indel.first) ensures k == index {
        }
      }
    }
  }

  /** Looks for the first active variant reaching the indel's start. */
  method CheckIndel(filteredVars: seq<Variant>, indexNextActive: nat, indel: IndelCall) returns (correctIndel: bool)
    ensures correctIndel == CorrectIndel(filteredVars, indexNextActive, indel)
  {
    correctIndel := true;
    var j := indexNextActive;
    while j < |filteredVars|
      invariant indexNextActive <= j
      invariant CorrectIndel(filteredVars, j, indel) == CorrectIndel(filteredVars, indexNextActive, indel)
      decreases |filteredVars| - j
    {
      var activeSegment := filteredVars[j];
      if activeSegment.last >= indel.first {
        correctIndel := activeSegment.first > indel.last;
        return;
      }
      j := j + 1;
    }
  }

  // ---------------------------------------------------------------------------
  // Rewriting one read

  /** What the rewrite of one read sees: the active variants and the pointer
      into them, the read as aligned, its position map and the consensus. */
  datatype ReadContext = ReadContext(vars: seq<Variant>, index: nat, read: string,
                                     readPos: int -> int, consensus: string)

  /** The sweep over a read: the next read position to copy, the reference
      end of the last indel, the read written so far and the indels undone. */
  datatype Sweep = Sweep(nextPos: int, lastRef: int, correctedRead: string, correctedErrors: int)

  /** Applies, between the last indel and the current one, the short
      homozygous active variants the read does not carry, from the `j`-th
      variant on; stops at the first variant reaching the indel. */
  function ApplyVariants(ctx: ReadContext, indel: IndelCall, posRead: int, j: nat, st: Sweep): Option<Sweep>
    decreases |ctx.vars| - j
  {
    if j >= |ctx.vars| then Some(st)
    else
      var v := ctx.vars[j];
      if v.first > st.lastRef && v.last < indel.first then
        if v.heterozygous || Abs(|v.refAllele| - |v.altAllele|) > MAX_INDEL_LENGTH then
          ApplyVariants(ctx, indel, posRead, j + 1, st)
        else
          var readPosStartVar := ctx.readPos(v.first);
          var readPosEndVar := ctx.readPos(v.last);
          if readPosStartVar > st.nextPos && readPosEndVar < posRead && readPosStartVar < readPosEndVar then
            match Substring(ctx.read, readPosStartVar, readPosEndVar + 1)
            case None => None
            case Some(currentSegment) =>
              if Abs(|currentSegment| - |v.calledAllele|) > MAX_INDEL_LENGTH then
                ApplyVariants(ctx, indel, posRead, j + 1, st)
              else
                match Substring(ctx.read, st.nextPos, readPosStartVar)
                case None => None
                case Some(before) =>
                  ApplyVariants(ctx, indel, posRead, j + 1,
                                st.(correctedRead := st.correctedRead + before + v.calledAllele,
                                    nextPos := readPosEndVar + 1))
          else ApplyVariants(ctx, indel, posRead, j + 1, st)
      else if v.last >= indel.first then Some(st)
      else ApplyVariants(ctx, indel, posRead, j + 1, st)
  }

  /** Applying variants only extends the read written so far, never moves
      the copy position back, and leaves the indel count and the reference
      end alone. */
  lemma {:induction false} ApplyVariantsExtends(ctx: ReadContext, indel: IndelCall, posRead: int, j: nat, st: Sweep)
    ensures var r := ApplyVariants(ctx, indel, posRead, j, st);
      r.Some? ==>
        && st.correctedRead <= r.value.correctedRead
        && st.nextPos <= r.value.nextPos <= Max(st.nextPos, posRead)
        && r.value.correctedErrors == st.correctedErrors && r.value.lastRef == st.lastRef
    decreases |ctx.vars| - j
  {
    if j < |ctx.vars| {
      var v := ctx.vars[j];
      if v.first > st.lastRef && v.last < indel.first && !v.heterozygous
         && Abs(|v.refAllele| - |v.altAllele|) <= MAX_INDEL_LENGTH {
        var readPosStartVar := ctx.readPos(v.first);
        var readPosEndVar := ctx.readPos(v.last);
        if readPosStartVar > st.nextPos && readPosEndVar < posRead && readPosStartVar < readPosEndVar {
          var seg := Substring(ctx.read, readPosStartVar, readPosEndVar + 1);
          if seg.Some? && Abs(|seg.value| - |v.calledAllele|) <= MAX_INDEL_LENGTH {
            var before := Substring(ctx.read, st.nextPos, readPosStartVar);
            if before.Some? {
              var st' := st.(correctedRead := st.correctedRead + before.value + v.calledAllele,
                             nextPos := readPosEndVar + 1);
              ApplyVariantsExtends(ctx, indel, posRead, j + 1, st');
            }
          } else if seg.Some? {
            ApplyVariantsExtends(ctx, indel, posRead, j + 1, st);
          }
        } else {
          ApplyVariantsExtends(ctx, indel, posRead, j + 1, st);
        }
      } else if !(v.last >= indel.first && !(v.first > st.lastRef && v.last < indel.first)) {
        ApplyVariantsExtends(ctx, indel, posRead, j + 1, st);
      }
    }
  }

  /** With no active variant from the `j`-th on lying between the last indel
      and the current one, the variant pass changes nothing. */
  lemma {:induction false} ApplyVariantsNoneBetween(ctx: ReadContext, indel: IndelCall, posRead: int, j: nat, st: Sweep)
    requires forall k :: j <= k < |ctx.vars| ==> !(ctx.vars[k].first > st.lastRef && ctx.vars[k].last < indel.first)
    ensures ApplyVariants(ctx, indel, posRead, j, st) == Some(st)
    decreases |ctx.vars| - j
  {
    if j < |ctx.vars| && ctx.vars[j].last < indel.first {
      ApplyVariantsNoneBetween(ctx, indel, posRead, j + 1, st);
    }
  }

  /** A short homozygous variant lying between the last indel and the current
      one, inside the stretch of the read still to be copied, is written into
      the read: the result starts with the read written so far, then the read
      from the copy position up to the variant, then the variant's called
      allele; copying resumes after the variant's end in the read. */
  lemma ApplyVariantsCorrectsHomozygous(ctx: ReadContext, indel: IndelCall, posRead: int, j: nat, st: Sweep)
    requires j < |ctx.vars|
    requires ctx.vars[j].first > st.lastRef && ctx.vars[j].last < indel.first
    requires !ctx.vars[j].heterozygous
    requires Abs(|ctx.vars[j].refAllele| - |ctx.vars[j].altAllele|) <= MAX_INDEL_LENGTH
    requires 0 <= st.nextPos < ctx.readPos(ctx.vars[j].first) < ctx.readPos(ctx.vars[j].last) < posRead
    requires ctx.readPos(ctx.vars[j].last) < |ctx.read|
    requires Abs(ctx.readPos(ctx.vars[j].last) + 1 - ctx.readPos(ctx.vars[j].first) - |ctx.vars[j].calledAllele|)
             <= MAX_INDEL_LENGTH
    ensures var r := ApplyVariants(ctx, indel, posRead, j, st);
      var v := ctx.vars[j];
      r.Some? ==>
        && st.correctedRead + ctx.read[st.nextPos..ctx.readPos(v.first)] + v.calledAllele <= r.value.correctedRead
        && ctx.readPos(v.last) + 1 <= r.value.nextPos
  {
    var v := ctx.vars[j];
    var s, e := ctx.readPos(v.first), ctx.readPos(v.last);
    var st' := st.(correctedRead := st.correctedRead + ctx.read[st.nextPos..s] + v.calledAllele,
                   nextPos := e + 1);
    assert Substring(ctx.read, s, e + 1) == Some(ctx.read[s..e + 1]);
    assert Substring(ctx.read, st.nextPos, s) == Some(ctx.read[st.nextPos..s]);
    assert ApplyVariants(ctx, indel, posRead, j, st) == ApplyVariants(ctx, indel, posRead, j + 1, st');
    ApplyVariantsExtends(ctx, indel, posRead, j + 1, st');
  }

  /** Copies the read up to the indel's position after applying the
      variants in between; nothing happens when the copy is already past it. */
  function CatchUp(ctx: ReadContext, indel: IndelCall, st: Sweep): Option<Sweep>
  {
    if indel.posRead > st.nextPos then
      match ApplyVariants(ctx, indel, indel.posRead, ctx.index, st)
      case None => None
      case Some(st1) =>
        match Substring(ctx.read, st1.nextPos, indel.posRead + 1)
        case None => None
        case Some(segment) => Some(st1.(correctedRead := st1.correctedRead + segment))
    else Some(st)
  }

  /** An indel the sweep undoes: short, and not explained by an active variant. */
  function Correctable(ctx: ReadContext): IndelCall -> bool
  {
    (indel: IndelCall) => indel.length <= MAX_INDEL_LENGTH && CorrectIndel(ctx.vars, ctx.index, indel)
  }

  /** One indel call of the read: long indels are skipped; otherwise the read
      is copied up to the indel, and a correctable insertion is skipped over
      in the read while a correctable deletion is filled in from the consensus. */
  function ProcessCall(ctx: ReadContext, st: Sweep, indel: IndelCall): Option<Sweep>
  {
    if indel.length > MAX_INDEL_LENGTH then Some(st)
    else
      match CatchUp(ctx, indel, st)
      case None => None
      case Some(st1) =>
        var st2 := st1.(nextPos := indel.posRead + 1, lastRef := indel.last);
        if CorrectIndel(ctx.vars, ctx.index, indel) then
          if indel.last == indel.first + 1 then
            Some(st2.(nextPos := st2.nextPos + indel.length, correctedErrors := st2.correctedErrors + 1))
          else
            match Substring(ctx.consensus, indel.first, indel.last - 1)
            case None => None
            case Some(deleted) =>
              Some(st2.(correctedRead := st2.correctedRead + deleted, correctedErrors := st2.correctedErrors + 1))
        else Some(st2)
  }

  /** The consensus bases a correctable deletion writes back into the read;
      nothing for an insertion or an indel that is kept. */
  function RestoredBases(ctx: ReadContext, indel: IndelCall): string
  {
    if Correctable(ctx)(indel) && indel.last != indel.first + 1 && 0 <= indel.first <= indel.last - 1 <= |ctx.consensus|
    then ctx.consensus[indel.first..indel.last - 1]
    else []
  }

  /** What one call does to the sweep: a long indel changes nothing; a short
      one moves the copy position just past the indel, or past the inserted
      bases too when a correctable insertion is skipped; a correctable
      deletion ends the read written so far with the deleted consensus
      bases; the indel count grows by one exactly for correctable indels;
      the read written so far only grows. What a short call writes is the
      variant pass's output, then the read from where that pass stopped up to
      and including the indel's position, then the restored deletion bases. */
  lemma ProcessCallSpec(ctx: ReadContext, st: Sweep, indel: IndelCall)
    ensures var r := ProcessCall(ctx, st, indel);
      && (indel.length > MAX_INDEL_LENGTH ==> r == Some(st))
      && (r.Some? ==>
            && st.correctedRead <= r.value.correctedRead
            && r.value.correctedErrors == st.correctedErrors + (if Correctable(ctx)(indel) then 1 else 0))
      && (r.Some? && indel.length <= MAX_INDEL_LENGTH ==>
            && r.value.lastRef == indel.last
            && (if Correctable(ctx)(indel) && indel.last == indel.first + 1
                then r.value.nextPos == indel.posRead + 1 + indel.length
                else r.value.nextPos == indel.posRead + 1)
            && (Correctable(ctx)(indel) && indel.last != indel.first + 1 ==>
                  r.value.correctedRead[|r.value.correctedRead| - (indel.last - 1 - indel.first)..]
                    == ctx.consensus[indel.first..indel.last - 1]))
      && (r.Some? && indel.length <= MAX_INDEL_LENGTH ==>
            if indel.posRead > st.nextPos then
              var av := ApplyVariants(ctx, indel, indel.posRead, ctx.index, st);
              && av.Some?
              && 0 <= av.value.nextPos <= indel.posRead + 1 <= |ctx.read|
              && r.value.correctedRead
                   == av.value.correctedRead + ctx.read[av.value.nextPos..indel.posRead + 1] + RestoredBases(ctx, indel)
            else r.value.correctedRead == st.correctedRead + RestoredBases(ctx, indel))
  {
    if indel.length <= MAX_INDEL_LENGTH && indel.posRead > st.nextPos {
      ApplyVariantsExtends(ctx, indel, indel.posRead, ctx.index, st);
    }
  }

  /** With no active variant between the last indel and this one, a short
      call copies the read verbatim from the copy position up to and
      including the indel's position, then restores a correctable deletion's
      consensus bases: the read's own bases are kept. */
  lemma ProcessCallCopiesRead(ctx: ReadContext, st: Sweep, indel: IndelCall)
    requires indel.length <= MAX_INDEL_LENGTH
    requires forall k :: ctx.index <= k < |ctx.vars| ==> !(ctx.vars[k].first > st.lastRef && ctx.vars[k].last < indel.first)
    ensures var r := ProcessCall(ctx, st, indel);
      r.Some? ==>
        && (indel.posRead > st.nextPos ==> 0 <= st.nextPos && indel.posRead + 1 <= |ctx.read|)
        && r.value.correctedRead
             == st.correctedRead + (if indel.posRead > st.nextPos then ctx.read[st.nextPos..indel.posRead + 1] else [])
                + RestoredBases(ctx, indel)
  {
    ProcessCallSpec(ctx, st, indel);
    if indel.posRead > st.nextPos {
      ApplyVariantsNoneBetween(ctx, indel, indel.posRead, ctx.index, st);
    } else {
      assert st.correctedRead + [] == st.correctedRead;
    }
  }

  /** The sweep over the calls, in order; `None` once a substring fails. */
  function SweepCalls(ctx: ReadContext, calls: seq<IndelCall>, st: Sweep): Option<Sweep>
  {
    if calls == [] then Some(st)
    else
      match SweepCalls(ctx, calls[..|calls| - 1], st)
      case None => None
      case Some(prev) => ProcessCall(ctx, prev, calls[|calls| - 1])
  }

  /** The start of every sweep. */
  const Start: Sweep := Sweep(0, 0, [], 0)

  /** The sweep counts exactly the correctable indels among the calls. */
  lemma {:induction false} SweepCountsCorrectable(ctx: ReadContext, calls: seq<IndelCall>, st: Sweep)
    ensures var r := SweepCalls(ctx, calls, st);
      r.Some? ==>
        && st.correctedRead <= r.value.correctedRead
        && r.value.correctedErrors == st.correctedErrors + |Filter(calls, Correctable(ctx))|
  {
    if calls != [] {
      var init := calls[..|calls| - 1];
      var indel := calls[|calls| - 1];
      SweepCountsCorrectable(ctx, init, st);
      var prev := SweepCalls(ctx, init, st);
      if prev.Some? {
        ProcessCallSpec(ctx, prev.value, indel);
      }
    }
  }

  /** Once a call fails, the sweep over any longer list of calls fails too. */
  lemma {:induction false} SweepFailureStays(ctx: ReadContext, calls: seq<IndelCall>, k: nat, st: Sweep)
    requires k <= |calls| && SweepCalls(ctx, calls[..k], st).None?
    ensures SweepCalls(ctx, calls, st).None?
    decreases |calls|
  {
    if k < |calls| {
      var init := calls[..|calls| - 1];
      assert init[..k] == calls[..k];
      SweepFailureStays(ctx, init, k, st);
    } else {
      assert calls[..k] == calls;
    }
  }

  /** The rewrite of one read with the tail copied when the copy position is
      still inside the READ, which is what the tail copy needs. */
  function CorrectRead(ctx: ReadContext, calls: seq<IndelCall>): Option<Sweep>
  {
    match SweepCalls(ctx, calls, Start)
    case None => None
    case Some(st) =>
      if st.nextPos < |ctx.read| then
        match Suffix(ctx.read, st.nextPos)
        case None => None
        case Some(tail) => Some(st.(correctedRead := st.correctedRead + tail))
      else Some(st)
  }

  /** The rewrite of one read as the source writes it: the tail is copied
      only when the copy position is inside the CONSENSUS. */
  function CorrectReadAsWritten(ctx: ReadContext, calls: seq<IndelCall>): Option<Sweep>
  {
    match SweepCalls(ctx, calls, Start)
    case None => None
    case Some(st) =>
      if st.nextPos < |ctx.consensus| then
        match Suffix(ctx.read, st.nextPos)
        case None => None
        case Some(tail) => Some(st.(correctedRead := st.correctedRead + tail))
      else Some(st)
  }

  /** Every base of the read after the last copied position is kept: the
      rewritten read is the sweep's output followed by the rest of the read,
      and the indels undone are exactly the correctable calls. */
  lemma CorrectReadKeepsTail(ctx: ReadContext, calls: seq<IndelCall>)
    ensures var sw := SweepCalls(ctx, calls, Start);
      var r := CorrectRead(ctx, calls);
      && (sw.None? ==> r.None?)
      && (sw.Some? && 0 <= sw.value.nextPos <= |ctx.read| ==>
            && r.Some?
            && r.value.correctedRead == sw.value.correctedRead + ctx.read[sw.value.nextPos..]
            && r.value.correctedErrors == |Filter(calls, Correctable(ctx))|)
  {
    SweepCountsCorrectable(ctx, calls, Start);
  }

  /** A read with no indel calls comes back unchanged. */
  lemma NoCallsKeepRead(ctx: ReadContext)
    ensures CorrectRead(ctx, []) == Some(Start.(correctedRead := ctx.read))
  {
  }

  /** As written, the tail of a read longer than the consensus is lost: a
      five-base read with one short insertion at read position 2, aligned to
      a three-base consensus with no variants, comes back as "ACG" whatever
      its position map; the corrected guard gives "ACGA". */
  lemma TailGuardDropsBases(ctx: ReadContext)
    requires ctx.vars == [] && ctx.index == 0 && ctx.read == "ACGTA" && ctx.consensus == "ACG"
    ensures CorrectReadAsWritten(ctx, [IndelCall(2, 2, 3, 1)]) == Some(Sweep(4, 3, "ACG", 1))
    ensures CorrectRead(ctx, [IndelCall(2, 2, 3, 1)]) == Some(Sweep(4, 3, "ACGA", 1))
  {
    var indel := IndelCall(2, 2, 3, 1);
    var calls := [indel];
    assert calls[..0] == [];
    assert SweepCalls(ctx, [], Start) == Some(Start);
    assert ApplyVariants(ctx, indel, 2, 0, Start) == Some(Start);
    assert "ACGTA"[0..3] == "ACG";
    assert Substring(ctx.read, 0, 3) == Some("ACG");
    assert Start.correctedRead + "ACG" == "ACG";
    assert CatchUp(ctx, indel, Start) == Some(Start.(correctedRead := "ACG"));
    assert CorrectIndel([], 0, indel);
    assert ProcessCall(ctx, Start, indel) == Some(Sweep(4, 3, "ACG", 1));
    assert SweepCalls(ctx, calls, Start) == Some(Sweep(4, 3, "ACG", 1));
    assert "ACGTA"[4..] == "A";
    assert Suffix(ctx.read, 4) == Some("A");
    assert "ACG" + "A" == "ACGA";
  }

  /** The as-written guard drops the whole rest of the read whenever the
      copy position lies between the consensus length and the read length. */
  lemma AsWrittenDropsTail(ctx: ReadContext, calls: seq<IndelCall>)
    ensures var sw := SweepCalls(ctx, calls, Start);
      sw.Some? && |ctx.consensus| <= sw.value.nextPos < |ctx.read| ==>
        CorrectReadAsWritten(ctx, calls) == Some(sw.value)
        && CorrectRead(ctx, calls).value.correctedRead
             == sw.value.correctedRead + ctx.read[sw.value.nextPos..]
  {
  }

  // ---------------------------------------------------------------------------
  // The rewrite, step by step

  /** The inner loop over the active variants between two indels. */
  method ApplyActiveVariants(ctx: ReadContext, indel: IndelCall, st: Sweep) returns (r: Option<Sweep>)
    ensures r == ApplyVariants(ctx, indel, indel.posRead, ctx.index, st)
  {
    var j := ctx.index;
    var cur := st;
    while j < |ctx.vars|
      invariant ApplyVariants(ctx, indel, indel.posRead, j, cur) == ApplyVariants(ctx, indel, indel.posRead, ctx.index, st)
      decreases |ctx.vars| - j
    {
      var v := ctx.vars[j];
      if v.first > cur.lastRef && v.last < indel.first {
        if !v.heterozygous && Abs(|v.refAllele| - |v.altAllele|) <= MAX_INDEL_LENGTH {
          var readPosStartVar := ctx.readPos(v.first);
          var readPosEndVar := ctx.readPos(v.last);
          if readPosStartVar > cur.nextPos && readPosEndVar < indel.posRead && readPosStartVar < readPosEndVar {
            var currentSegment := Substring(ctx.read, readPosStartVar, readPosEndVar + 1);
            if currentSegment.None? {
              return None;
            }
            if Abs(|currentSegment.value| - |v.calledAllele|) <= MAX_INDEL_LENGTH {
              var before := Substring(ctx.read, cur.nextPos, readPosStartVar);
              if before.None? {
                return None;
              }
              cur := cur.(correctedRead := cur.correctedRead + before.value + v.calledAllele,
                          nextPos := readPosEndVar + 1);
            }
          }
        }
      } else if v.last >= indel.first {
        return Some(cur);
      }
      j := j + 1;
    }
    return Some(cur);
  }

  /** The loop over the indel calls of one read, then the tail copy. */
  method RewriteRead(ctx: ReadContext, calls: seq<IndelCall>) returns (r: Option<Sweep>)
    ensures r == CorrectRead(ctx, calls)
  {
    var cur := Start;
    var i := 0;
    while i < |calls|
      invariant 0 <= i <= |calls|
      invariant SweepCalls(ctx, calls[..i], Start) == Some(cur)
    {
      var indel := calls[i];
      assert calls[..i + 1][..i] == calls[..i];
      if indel.length <= MAX_INDEL_LENGTH {
        if indel.posRead > cur.nextPos {
          var applied := ApplyActiveVariants(ctx, indel, cur);
          var segment := if applied.Some? then Substring(ctx.read, applied.value.nextPos, indel.posRead + 1) else None;
          if segment.None? {
            SweepFailureStays(ctx, calls, i + 1, Start);
            return None;
          }
          cur := applied.value.(correctedRead := applied.value.correctedRead + segment.value);
        }
        cur := cur.(nextPos := indel.posRead + 1, lastRef := indel.last);
        var correctIndel := CheckIndel(ctx.vars, ctx.index, indel);
        if correctIndel {
          if indel.last == indel.first + 1 {
            cur := cur.(nextPos := cur.nextPos + indel.length);
          } else {
            var deleted := Substring(ctx.consensus, indel.first, indel.last - 1);
            if deleted.None? {
              SweepFailureStays(ctx, calls, i + 1, Start);
              return None;
            }
            cur := cur.(correctedRead := cur.correctedRead + deleted.value);
          }
          cur := cur.(correctedErrors := cur.correctedErrors + 1);
        }
      }
      i := i + 1;
    }
    assert calls[..i] == calls;
    if cur.nextPos < |ctx.read| {
      var tail := Suffix(ctx.read, cur.nextPos);
      if tail.None? {
        return None;
      }
      cur := cur.(correctedRead := cur.correctedRead + tail.value);
    }
    return Some(cur);
  }

  // ---------------------------------------------------------------------------
  // One path

  /** What stays fixed while one path is corrected: its active variants, its
      consensus, its id and the reverse complement. */
  datatype PathContext = PathContext(vars: seq<Variant>, consensus: string, pathId: int, revComp: string -> string)

  /** The reads' characters, the path id each read was corrected by (0 for
      none), the variant pointer and the two counters of the path. */
  datatype PathState = PathState(sequences: seq<string>, marks: seq<int>, indexNextActive: nat,
                                 correctedErrors: int, correctedReads: int)

  /** A run over alignments: the state reached and whether every read went
      through (`false` when a substring or an array index failed). */
  datatype PathRun = PathRun(state: PathState, ok: bool)

  /** One alignment of the path: a read already corrected by a path is
      skipped; otherwise the variant pointer advances, a read without indel
      calls is left alone, and any other read is rewritten, reverse
      complemented when it aligned to the negative strand, and marked. */
  function PathStep(pc: PathContext, st: PathState, aln: ReadAlignment): Option<PathState>
  {
    var readId := aln.readNumber;
    if !(0 <= readId < |st.marks| && readId < |st.sequences|) then None
    else if st.marks[readId] > 0 then Some(st)
    else
      var index := AdvanceFrom(pc.vars, st.indexNextActive, aln.first);
      match aln.indelCalls
      case None => Some(st.(indexNextActive := index))
      case Some(calls) =>
        match CorrectRead(ReadContext(pc.vars, index, aln.readCharacters, aln.alignedReadPosition, pc.consensus), calls)
        case None => None
        case Some(sw) =>
          var text := if aln.negativeStrand then pc.revComp(sw.correctedRead) else sw.correctedRead;
          Some(st.(sequences := st.sequences[readId := text], marks := st.marks[readId := pc.pathId],
                   indexNextActive := index, correctedErrors := st.correctedErrors + sw.correctedErrors,
                   correctedReads := st.correctedReads + 1))
  }

  /** The alignments of the path in order, stopping at the first failure
      with the state reached before it. */
  function RunAlignments(pc: PathContext, alns: seq<ReadAlignment>, st: PathState): PathRun
  {
    if alns == [] then PathRun(st, true)
    else
      var prev := RunAlignments(pc, alns[..|alns| - 1], st);
      if !prev.ok then prev
      else
        match PathStep(pc, prev.state, alns[|alns| - 1])
        case None => PathRun(prev.state, false)
        case Some(next) => PathRun(next, true)
  }

  /** A step touches only the read it is about: a read already marked is
      neither rewritten nor re-marked, a read without indel calls is neither
      rewritten nor marked, a read that is rewritten is marked with the
      path's id, and the variant pointer never moves back. */
  lemma PathStepFrame(pc: PathContext, st: PathState, aln: ReadAlignment)
    ensures var r := PathStep(pc, st, aln);
      var readId := aln.readNumber;
      r.Some? ==>
        && |r.value.sequences| == |st.sequences| && |r.value.marks| == |st.marks|
        && (forall k :: 0 <= k < |st.sequences| && k != readId ==> r.value.sequences[k] == st.sequences[k])
        && (forall k :: 0 <= k < |st.marks| && k != readId ==> r.value.marks[k] == st.marks[k])
        && (st.marks[readId] > 0 || aln.indelCalls.None? ==>
              r.value.sequences == st.sequences && r.value.marks == st.marks)
        && (st.marks[readId] <= 0 && aln.indelCalls.Some? ==>
              r.value.marks[readId] == pc.pathId && r.value.correctedReads == st.correctedReads + 1)
        && r.value.indexNextActive >= st.indexNextActive
  {
    if st.indexNextActive <= |pc.vars| {
      AdvanceFromSpec(pc.vars, st.indexNextActive, aln.first);
    }
  }

  /** Over a whole path: the arrays keep their sizes, a read marked before
      the path starts is neither rewritten nor re-marked, and every read
      rewritten or re-marked by the path was unmarked and now carries the
      path's id; the variant pointer never moves back. */
  lemma {:induction false} RunAlignmentsFrame(pc: PathContext, alns: seq<ReadAlignment>, st: PathState)
    ensures var r := RunAlignments(pc, alns, st).state;
      && |r.sequences| == |st.sequences| && |r.marks| == |st.marks|
      && r.indexNextActive >= st.indexNextActive
      && (forall k :: 0 <= k < |st.marks| && k < |st.sequences| && st.marks[k] > 0 ==>
            r.sequences[k] == st.sequences[k] && r.marks[k] == st.marks[k])
      && (forall k :: 0 <= k < |st.marks| && k < |st.sequences| && (r.sequences[k] != st.sequences[k] || r.marks[k] != st.marks[k]) ==>
            st.marks[k] <= 0 && r.marks[k] == pc.pathId)
  {
    if alns != [] {
      var init := alns[..|alns| - 1];
      var aln := alns[|alns| - 1];
      RunAlignmentsFrame(pc, init, st);
      var prev := RunAlignments(pc, init, st);
      if prev.ok {
        PathStepFrame(pc, prev.state, aln);
      }
    }
  }

  /** The run over one more alignment: the previous run's state, stepped. */
  lemma RunAlignmentsNext(pc: PathContext, alns: seq<ReadAlignment>, i: nat, st: PathState, before: PathState)
    requires i < |alns| && RunAlignments(pc, alns[..i], st) == PathRun(before, true)
    ensures RunAlignments(pc, alns[..i + 1], st)
         == match PathStep(pc, before, alns[i])
            case None => PathRun(before, false)
            case Some(next) => PathRun(next, true)
  {
    assert alns[..i + 1][..i] == alns[..i];
  }

  /** Once a read fails, the run over any longer list of alignments ends
      in the same state. */
  lemma {:induction false} PathFailureStays(pc: PathContext, alns: seq<ReadAlignment>, k: nat, st: PathState)
    requires k <= |alns| && !RunAlignments(pc, alns[..k], st).ok
    ensures RunAlignments(pc, alns, st) == RunAlignments(pc, alns[..k], st)
    decreases |alns|
  {
    if k < |alns| {
      var init := alns[..|alns| - 1];
      assert init[..k] == alns[..k];
      PathFailureStays(pc, init, k, st);
    } else {
      assert alns[..k] == alns;
    }
  }

  /** The correction of one path from the sequences' characters and marks. */
  function CorrectPathRun(path: PathAlignment, pathId: int, revComp: string -> string,
                          sequences: seq<string>, marks: seq<int>): PathRun
  {
    RunAlignments(PathContext(Filter(path.calledVars, IsActive), path.rawConsensus, pathId, revComp),
                  path.alignments, PathState(sequences, marks, 0, 0, 0))
  }

  /** Corrects the read of one alignment unless an earlier path already
      did; fails on a read id outside the read set or a failed rewrite. */
  method CorrectAlignment(sequences: array<string>, sequencePaths: array<int>, pc: PathContext,
                          aln: ReadAlignment, indexNextActive: nat, correctedErrors: int, correctedReads: int)
    returns (ok: bool, newIndexNextActive: nat, newCorrectedErrors: int, newCorrectedReads: int)
    requires sequences.Length == sequencePaths.Length
    modifies sequences, sequencePaths
    ensures var before := PathState(old(sequences[..]), old(sequencePaths[..]), indexNextActive, correctedErrors, correctedReads);
      var after := PathState(sequences[..], sequencePaths[..], newIndexNextActive, newCorrectedErrors, newCorrectedReads);
      match PathStep(pc, before, aln)
      case None => !ok && after == before
      case Some(next) => ok && after == next
  {
    ok, newIndexNextActive, newCorrectedErrors, newCorrectedReads := true, indexNextActive, correctedErrors, correctedReads;
    var readId := aln.readNumber;
    if !(0 <= readId < sequencePaths.Length) {
      return false, indexNextActive, correctedErrors, correctedReads;
    }
    if sequencePaths[readId] > 0 {
      return;
    }
    newIndexNextActive := AdvanceActive(pc.vars, indexNextActive, aln.first);
    if aln.indelCalls.None? {
      return;
    }
    var ctx := ReadContext(pc.vars, newIndexNextActive, aln.readCharacters, aln.alignedReadPosition, pc.consensus);
    var sw := RewriteRead(ctx, aln.indelCalls.value);
    if sw.None? {
      return false, indexNextActive, correctedErrors, correctedReads;
    }
    var correctedRead := sw.value.correctedRead;
    if aln.negativeStrand {
      correctedRead := pc.revComp(correctedRead);
    }
    sequences[readId] := correctedRead;
    sequencePaths[readId] := pc.pathId;
    newCorrectedErrors := correctedErrors + sw.value.correctedErrors;
    newCorrectedReads := correctedReads + 1;
  }

  /** Corrects the reads of one path, in alignment order. */
  method CorrectPath(sequences: array<string>, sequencePaths: array<int>, path: PathAlignment,
                     pathId: int, revComp: string -> string)
    returns (ok: bool, correctedErrors: int, correctedReads: int)
    requires sequences.Length == sequencePaths.Length
    modifies sequences, sequencePaths
    ensures var run := CorrectPathRun(path, pathId, revComp, old(sequences[..]), old(sequencePaths[..]));
      && sequences[..] == run.state.sequences && sequencePaths[..] == run.state.marks && ok == run.ok
      && correctedErrors == run.state.correctedErrors && correctedReads == run.state.correctedReads
  {
    var filteredVars := FilterVariants(path.calledVars);
    var pc := PathContext(filteredVars, path.rawConsensus, pathId, revComp);
    var alignments := path.alignments;
    ghost var start := PathState(sequences[..], sequencePaths[..], 0, 0, 0);
    var indexNextActive: nat := 0;
    correctedErrors := 0;
    correctedReads := 0;
    var i := 0;
    while i < |alignments|
      invariant 0 <= i <= |alignments|
      invariant RunAlignments(pc, alignments[..i], start)
        == PathRun(PathState(sequences[..], sequencePaths[..], indexNextActive, correctedErrors, correctedReads), true)
    {
      ghost var before := PathState(sequences[..], sequencePaths[..], indexNextActive, correctedErrors, correctedReads);
      RunAlignmentsNext(pc, alignments, i, start, before);
      var stepped;
      stepped, indexNextActive, correctedErrors, correctedReads :=
        CorrectAlignment(sequences, sequencePaths, pc, alignments[i], indexNextActive, correctedErrors, correctedReads);
      if !stepped {
        PathFailureStays(pc, alignments, i + 1, start);
        return false, correctedErrors, correctedReads;
      }
      i := i + 1;
    }
    assert alignments[..i] == alignments;
    return true, correctedErrors, correctedReads;
  }

  // ---------------------------------------------------------------------------
  // All paths

  /** The reads' characters and marks after a run over paths, and whether
      every path went through. */
  datatype Outcome = Outcome(sequences: seq<string>, marks: seq<int>, ok: bool)

  /** The paths in order, the `i`-th (from 0) with id `i + 1`, stopping at
      the first path that fails. */
  function RunPaths(paths: seq<PathAlignment>, revComp: string -> string, sequences: seq<string>, marks: seq<int>): Outcome
  {
    if paths == [] then Outcome(sequences, marks, true)
    else
      var prev := RunPaths(paths[..|paths| - 1], revComp, sequences, marks);
      if !prev.ok then prev
      else
        var run := CorrectPathRun(paths[|paths| - 1], |paths|, revComp, prev.sequences, prev.marks);
        Outcome(run.state.sequences, run.state.marks, run.ok)
  }

  /** The marks before any path: no read corrected. */
  function Unmarked(n: nat): (r: seq<int>)
    ensures |r| == n && forall k :: 0 <= k < n ==> r[k] == 0
  {
    seq(n, _ => 0)
  }

  /** No read is corrected twice: starting from non-negative marks, a read
      whose characters or mark change was unmarked and ends marked with the
      id of one of the paths, and a marked read is never touched again. */
  lemma {:induction false} RunPathsSpec(paths: seq<PathAlignment>, revComp: string -> string,
                                        sequences: seq<string>, marks: seq<int>)
    requires |sequences| == |marks|
    requires forall k :: 0 <= k < |marks| ==> marks[k] >= 0
    ensures var out := RunPaths(paths, revComp, sequences, marks);
      && |out.sequences| == |sequences| && |out.marks| == |marks|
      && (forall k :: 0 <= k < |marks| ==> out.marks[k] >= 0)
      && (forall k :: 0 <= k < |marks| && marks[k] > 0 ==>
            out.sequences[k] == sequences[k] && out.marks[k] == marks[k])
      && (forall k :: 0 <= k < |marks| && (out.sequences[k] != sequences[k] || out.marks[k] != marks[k]) ==>
            marks[k] == 0 && 1 <= out.marks[k] <= |paths|)
  {
    if paths != [] {
      var init := paths[..|paths| - 1];
      RunPathsSpec(init, revComp, sequences, marks);
      var prev := RunPaths(init, revComp, sequences, marks);
      if prev.ok {
        var path := paths[|paths| - 1];
        var pc := PathContext(Filter(path.calledVars, IsActive), path.rawConsensus, |paths|, revComp);
        RunAlignmentsFrame(pc, path.alignments, PathState(prev.sequences, prev.marks, 0, 0, 0));
      }
    }
  }

  /** Once a path fails, the run over any longer list of paths ends in the
      same outcome. */
  lemma {:induction false} PathsFailureStays(paths: seq<PathAlignment>, k: nat, revComp: string -> string,
                                             sequences: seq<string>, marks: seq<int>)
    requires k <= |paths| && !RunPaths(paths[..k], revComp, sequences, marks).ok
    ensures RunPaths(paths, revComp, sequences, marks) == RunPaths(paths[..k], revComp, sequences, marks)
    decreases |paths|
  {
    if k < |paths| {
      var init := paths[..|paths| - 1];
      assert init[..k] == paths[..k];
      PathsFailureStays(init, k, revComp, sequences, marks);
    } else {
      assert paths[..k] == paths;
    }
  }

  /** Corrects the reads path after path, giving the `i`-th path (from 0)
      the id `i + 1` and keeping one mark per read so that no read is
      rewritten by two paths. */
  method CorrectErrors(sequences: array<string>, paths: seq<PathAlignment>, revComp: string -> string)
    returns (ok: bool)
    modifies sequences
    ensures var out := RunPaths(paths, revComp, old(sequences[..]), Unmarked(sequences.Length));
      sequences[..] == out.sequences && ok == out.ok
  {
    var n := sequences.Length;
    var sequencePaths := new int[n](_ => 0);
    assert sequencePaths[..] == Unmarked(n);
    ghost var start := sequences[..];
    var i := 0;
    while i < |paths|
      invariant 0 <= i <= |paths|
      invariant RunPaths(paths[..i], revComp, start, Unmarked(n)) == Outcome(sequences[..], sequencePaths[..], true)
    {
      assert paths[..i + 1][..i] == paths[..i];
      var pathOk, _, _ := CorrectPath(sequences, sequencePaths, paths[i], i + 1, revComp);
      if !pathOk {
        PathsFailureStays(paths, i + 1, revComp, start, Unmarked(n));
        return false;
      }
      i := i + 1;
    }
    assert paths[..i] == paths;
    return true;
  }
}

