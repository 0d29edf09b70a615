/** A scan that finds nothing new recomputes no label. It still gives parents to blocks at height 0 that
    have none, with labels taken from the parent as it is at that moment. Which of these labels are
    the same however the blocks lie in the files is decided here, before the scan. */
module QuietScan {
  import opened Ancestry
  import opened BlockIndexModel
  import opened Common
  import opened BlockFileScan
  import opened ScanEntries
  import opened ScanPipeline

  /** Every block on disk has an entry with data and a complete header. */
  ghost predicate Quiet(s: Start) {
    StartOk(s) && forall h :: !Stirs(s, h)
  }

  lemma QuietHas(s: Start, h: Hash)
    requires Quiet(s) && h in Known(s)
    ensures Had(s, h) && (h in s.recs ==> !HeaderIncomplete(Old(s, h)))
  {
    assert !Stirs(s, h);
  }

  /** Nothing gives this entry a new parent when its block is met. */
  predicate KeepsLink(s: Start, h: Hash) {
    !(h in s.recs && OldLink(s, h) == 0 && OldHeight(s, h) == 0 && s.recs[h].prev in Known(s))
  }

  /** Getting its parent leaves the block the labels it has. */
  predicate Unmoved(s: Start, pow: Proof, h: Hash) {
    && h in s.recs && Had(s, h) && Had(s, s.recs[h].prev)
    && Old(s, h).height == Old(s, s.recs[h].prev).height + 1
    && Old(s, h).work == Add256(Old(s, s.recs[h].prev).work, pow(Bits(s, h)))
  }

  /** The labels of the block do not change during the scan. */
  predicate Steady(s: Start, pow: Proof, h: Hash) {
    KeepsLink(s, h) || Unmoved(s, pow, h)
  }

  /** The labels the block ends up with do not depend on the order in which blocks are met: it gets no
      parent, or is its own, or its parent is steady. */
  predicate Settled(s: Start, pow: Proof, h: Hash) {
    KeepsLink(s, h) || s.recs[h].prev == h || Steady(s, pow, s.recs[h].prev)
  }

  /** Labels of h that follow from its parent as it was before the scan. */
  ghost predicate FromOldParent(s: Start, pow: Proof, h: Hash, n: Node)
    requires Quiet(s) && h in s.table && !KeepsLink(s, h)
  {
    var prev := s.recs[h].prev;
    QuietHas(s, prev);
    n.height == Old(s, prev).height + 1 && n.work == Add256(Old(s, prev).work, pow(Bits(s, h)))
  }

  /** The entry is where it was, or a block without a parent has got its own. */
  ghost predicate QuietEntry(s: Start, pow: Proof, h: Hash, n: Node)
    requires Quiet(s) && h in s.table
  {
    QuietHas(s, h);
    var o := Old(s, h);
    && n.chainTx == o.chainTx && n.bits == o.bits && (h in s.recs ==> !HeaderIncomplete(n))
    && if KeepsLink(s, h) || n.pprev == 0 then n.pprev == o.pprev && n.height == o.height && n.work == o.work
       else LinkedTo(s.table, Some(s.recs[h].prev), n.pprev) && (Settled(s, pow, h) ==> FromOldParent(s, pow, h, n))
  }

  /** A steady block shows the labels it had throughout. */
  lemma SteadyLabels(s: Start, pow: Proof, h: Hash, n: Node)
    requires Quiet(s) && h in s.table && Steady(s, pow, h) && QuietEntry(s, pow, h, n)
    ensures Had(s, h) && n.height == Old(s, h).height && n.work == Old(s, h).work
  {
    hide Add256, Quiet;
    QuietHas(s, h);
    if !KeepsLink(s, h) {
      QuietHas(s, s.recs[h].prev);
    }
  }

  /** A report of a block that the records describe. */
  predicate Reported(s: Start, r: Report) {
    r.meta.hash in s.recs && s.recs[r.meta.hash] == RecordOf(r.meta) && r.meta.dataPos < COUNT_MODULUS
  }

  ghost predicate AllReported(s: Start, rs: seq<Report>) {
    forall i :: 0 <= i < |rs| ==> Reported(s, rs[i])
  }

  /** Every entry during a quiet scan. */
  ghost predicate QuietMem(s: Start, pow: Proof, mem: Memory)
    requires Quiet(s)
  {
    && mem.Keys == s.mem.Keys
    && forall h :: h in s.table ==> QuietEntry(s, pow, h, mem[s.table[h]])
  }

  lemma QuietTable(s: Start, h: Hash, k: Hash)
    requires Quiet(s) && h in s.table && k in s.table
    ensures s.table[h] in s.mem && s.table[h] != 0 && (h != k ==> s.table[h] != s.table[k])
  {
  }

  lemma QuietKnown(s: Start, mem: Memory, rs: seq<Report>)
    requires Quiet(s) && mem.Keys == s.mem.Keys && AllReported(s, rs)
    ensures AllKnown(mem, s.table, rs) && (forall h :: h in Known(s) ==> h in s.table)
  {
    forall i | 0 <= i < |rs| ensures rs[i].meta.hash in s.table && rs[i].meta.dataPos < COUNT_MODULUS {
      assert Reported(s, rs[i]);
      QuietHas(s, rs[i].meta.hash);
    }
    forall h | h in Known(s) ensures h in s.table {
      QuietHas(s, h);
    }
  }

  /** The block of r is met: what becomes of its entry. */
  ghost function MeetOne(s: Start, pow: Proof, mem: Memory, r: Report): Node
    requires Quiet(s) && mem.Keys == s.mem.Keys && Reported(s, r)
  {
    QuietKnown(s, mem, [r]);
    assert [r][0] == r;
    Applied(mem, s.table, pow, s.table[r.meta.hash], r.file, r.meta)
  }

  lemma QuietMeet(s: Start, pow: Proof, mem: Memory, r: Report)
    requires Quiet(s) && QuietMem(s, pow, mem) && Reported(s, r)
    ensures r.meta.hash in s.table && QuietEntry(s, pow, r.meta.hash, MeetOne(s, pow, mem, r))
    ensures !KeepsLink(s, r.meta.hash) ==> MeetOne(s, pow, mem, r).pprev != 0
  {
    hide Applied, Add256, Quiet, HeaderIncomplete, Unmoved;
    var h := r.meta.hash;
    QuietKnown(s, mem, [r]);
    assert [r][0] == r;
    QuietHas(s, h);
    QuietTable(s, h, h);
    assert QuietEntry(s, pow, h, mem[s.table[h]]);
    AppliedFields(mem, s.table, pow, s.table[h], r.file, r.meta);
    if !KeepsLink(s, h) {
      var prev := s.recs[h].prev;
      QuietHas(s, prev);
      QuietTable(s, prev, h);
      assert QuietEntry(s, pow, prev, mem[s.table[prev]]);
      if Settled(s, pow, h) && prev != h {
        SteadyLabels(s, pow, prev, mem[s.table[prev]]);
      }
    }
  }

  /** The memory after the blocks of rs have been met. */
  ghost function QuietScanned(s: Start, pow: Proof, mem: Memory, rs: seq<Report>): (mem': Memory)
    requires Quiet(s) && mem.Keys == s.mem.Keys && AllReported(s, rs)
    ensures mem'.Keys == s.mem.Keys
  {
    QuietKnown(s, mem, rs);
    MeetAll(mem, s.table, pow, rs)
  }

  lemma QuietStep(s: Start, pow: Proof, mem: Memory, rs: seq<Report>)
    requires Quiet(s) && mem.Keys == s.mem.Keys && AllReported(s, rs) && rs != []
    ensures var front, r := rs[..|rs| - 1], rs[|rs| - 1];
            && AllReported(s, front) && Reported(s, r) && r.meta.hash in s.table
            && var m := QuietScanned(s, pow, mem, front);
               QuietScanned(s, pow, mem, rs) == m[s.table[r.meta.hash] := MeetOne(s, pow, m, r)]
  {
    hide Applied;
    QuietKnown(s, mem, rs);
  }

  /** What one more block does: its own entry is as MeetOne says, every other as it was. */
  lemma QuietStepAt(s: Start, pow: Proof, mem: Memory, rs: seq<Report>, h: Hash)
    requires Quiet(s) && mem.Keys == s.mem.Keys && AllReported(s, rs) && rs != [] && h in s.table
    ensures var front, r := rs[..|rs| - 1], rs[|rs| - 1];
            && AllReported(s, front) && Reported(s, r) && s.table[h] in s.mem
            && var m := QuietScanned(s, pow, mem, front);
               QuietScanned(s, pow, mem, rs)[s.table[h]] == if r.meta.hash == h then MeetOne(s, pow, m, r) else m[s.table[h]]
  {
    hide QuietScanned, MeetOne;
    QuietStep(s, pow, mem, rs);
    QuietTable(s, h, rs[|rs| - 1].meta.hash);
  }

  /** Every entry stays quiet, and a block that has been met has its parent. */
  lemma {:induction false} QuietRun(s: Start, pow: Proof, mem: Memory, rs: seq<Report>)
    requires Quiet(s) && QuietMem(s, pow, mem) && AllReported(s, rs)
    ensures QuietMem(s, pow, QuietScanned(s, pow, mem, rs))
    decreases |rs|
  {
    hide QuietScanned, MeetOne, QuietEntry;
    if rs == [] {
      NothingMet(s, pow, mem);
    } else {
      var front, r := rs[..|rs| - 1], rs[|rs| - 1];
      QuietStep(s, pow, mem, rs);
      QuietRun(s, pow, mem, front);
      QuietMeet(s, pow, QuietScanned(s, pow, mem, front), r);
      forall h | h in s.table ensures QuietEntry(s, pow, h, QuietScanned(s, pow, mem, rs)[s.table[h]]) {
        QuietStepAt(s, pow, mem, rs, h);
      }
    }
  }

  lemma NothingMet(s: Start, pow: Proof, mem: Memory)
    requires Quiet(s) && mem.Keys == s.mem.Keys
    ensures QuietScanned(s, pow, mem, []) == mem
  {
  }

  lemma QuietStart(s: Start, pow: Proof)
    requires Quiet(s)
    ensures QuietMem(s, pow, s.mem)
  {
    hide Settled;
    forall h | h in s.table ensures QuietEntry(s, pow, h, s.mem[s.table[h]]) {
      QuietHas(s, h);
    }
  }

  /** A link once there stays, with the height and the work it came with. */
  lemma {:induction false} LinkedStays(s: Start, pow: Proof, mem: Memory, rs: seq<Report>, h: Hash)
    requires Quiet(s) && mem.Keys == s.mem.Keys && AllReported(s, rs) && h in s.table && s.table[h] in mem
    requires mem[s.table[h]].pprev != 0
    ensures var n, n' := mem[s.table[h]], QuietScanned(s, pow, mem, rs)[s.table[h]];
            n'.pprev == n.pprev && n'.height == n.height && n'.work == n.work
    decreases |rs|
  {
    hide QuietScanned, Applied, Quiet;
    if rs == [] {
      NothingMet(s, pow, mem);
    } else {
      QuietStepAt(s, pow, mem, rs, h);
      var front, r := rs[..|rs| - 1], rs[|rs| - 1];
      LinkedStays(s, pow, mem, front, h);
      if r.meta.hash == h {
        QuietKnown(s, mem, rs);
        AppliedFields(QuietScanned(s, pow, mem, front), s.table, pow, s.table[h], r.file, r.meta);
      }
    }
  }

  /** A block that has been met has its parent, if it was to get one. */
  lemma {:induction false} MetIsLinked(s: Start, pow: Proof, mem: Memory, rs: seq<Report>, i: nat)
    requires Quiet(s) && QuietMem(s, pow, mem) && AllReported(s, rs) && i < |rs| && !KeepsLink(s, rs[i].meta.hash)
    ensures rs[i].meta.hash in s.table && QuietScanned(s, pow, mem, rs)[s.table[rs[i].meta.hash]].pprev != 0
    decreases |rs|
  {
    hide QuietScanned, MeetOne, QuietEntry, Quiet, KeepsLink;
    var h := rs[i].meta.hash;
    assert Reported(s, rs[i]);
    QuietHas(s, h);
    var front, r := rs[..|rs| - 1], rs[|rs| - 1];
    QuietStepAt(s, pow, mem, rs, h);
    QuietRun(s, pow, mem, front);
    var m := QuietScanned(s, pow, mem, front);
    if r.meta.hash == h {
      QuietMeet(s, pow, m, r);
    } else {
      MetIsLinked(s, pow, mem, front, i);
    }
  }

  /** The blocks met are those of the records. */
  ghost predicate Covers(s: Start, rs: seq<Report>) {
    AllReported(s, rs) && forall h :: h in s.recs ==> exists i :: 0 <= i < |rs| && rs[i].meta.hash == h
  }

  /** What the scan leaves of an entry whose labels are settled. */
  ghost predicate SettledEntry(s: Start, pow: Proof, h: Hash, n: Node)
    requires Quiet(s) && h in s.table
  {
    QuietHas(s, h);
    && n.chainTx == Old(s, h).chainTx
    && if KeepsLink(s, h) then n.pprev == Old(s, h).pprev && n.height == Old(s, h).height && n.work == Old(s, h).work
       else LinkedTo(s.table, Some(s.recs[h].prev), n.pprev) && FromOldParent(s, pow, h, n)
  }

  /** However the blocks lie in the files, a settled block gets the labels its parent had before. */
  lemma SettledExact(s: Start, pow: Proof, rs: seq<Report>, h: Hash)
    requires Quiet(s) && Covers(s, rs) && h in s.table && Settled(s, pow, h)
    ensures s.table[h] in s.mem && SettledEntry(s, pow, h, QuietScanned(s, pow, s.mem, rs)[s.table[h]])
  {
    hide QuietScanned, FromOldParent, Settled, Quiet;
    QuietTable(s, h, h);
    QuietStart(s, pow);
    QuietRun(s, pow, s.mem, rs);
    assert QuietEntry(s, pow, h, QuietScanned(s, pow, s.mem, rs)[s.table[h]]);
    if !KeepsLink(s, h) {
      var i :| 0 <= i < |rs| && rs[i].meta.hash == h;
      MetIsLinked(s, pow, s.mem, rs, i);
    }
  }

  /** The first block is met, then the rest. */
  lemma QuietFirst(s: Start, pow: Proof, mem: Memory, rs: seq<Report>)
    requires Quiet(s) && mem.Keys == s.mem.Keys && AllReported(s, rs) && rs != []
    ensures Reported(s, rs[0]) && AllReported(s, rs[1..]) && rs[0].meta.hash in s.table
    ensures var m := mem[s.table[rs[0].meta.hash] := MeetOne(s, pow, mem, rs[0])];
            && m.Keys == s.mem.Keys
            && QuietScanned(s, pow, mem, rs) == QuietScanned(s, pow, m, rs[1..])
  {
    hide Applied, Met;
    var r, rest := rs[0], rs[1..];
    assert Reported(s, r);
    QuietKnown(s, mem, rs);
    QuietTable(s, r.meta.hash, r.meta.hash);
    var m := mem[s.table[r.meta.hash] := MeetOne(s, pow, mem, r)];
    QuietKnown(s, m, rest);
    assert [r] + rest == rs;
    FirstThenRest(mem, s.table, pow, r, rest);
  }

  lemma FirstThenRest(mem: Memory, table: map<Hash, Ptr>, pow: Proof, r: Report, rest: seq<Report>)
    requires AllKnown(mem, table, [r] + rest) && r.meta.hash in table && r.meta.dataPos < COUNT_MODULUS
    ensures var m := mem[table[r.meta.hash] := Applied(mem, table, pow, table[r.meta.hash], r.file, r.meta)];
            AllKnown(m, table, rest) && MeetAll(mem, table, pow, [r] + rest) == MeetAll(m, table, pow, rest)
  {
    hide Applied;
    var m := mem[table[r.meta.hash] := Applied(mem, table, pow, table[r.meta.hash], r.file, r.meta)];
    forall i | 0 <= i < |rest| ensures rest[i].meta.hash in table && rest[i].meta.dataPos < COUNT_MODULUS {
      assert ([r] + rest)[i + 1] == rest[i];
    }
    MetOne(mem, table, pow, r);
    MetJoin(mem, m, MeetAll(m, table, pow, rest), table, pow, [r], rest);
  }

  /** A block met first takes its labels from its parent as it was. */
  lemma MetFirst(s: Start, pow: Proof, mem: Memory, rs: seq<Report>, h: Hash)
    requires Quiet(s) && AllReported(s, rs) && rs != [] && rs[0].meta.hash == h && !KeepsLink(s, h) && mem == s.mem
    ensures h in s.table && FromOldParent(s, pow, h, MeetOne(s, pow, mem, rs[0])) && MeetOne(s, pow, mem, rs[0]).pprev != 0
    ensures FromOldParent(s, pow, h, QuietScanned(s, pow, s.mem, rs)[s.table[h]])
  {
    hide QuietScanned, Applied, Add256, Quiet, HeaderIncomplete;
    QuietHas(s, h);
    QuietHas(s, s.recs[h].prev);
    QuietTable(s, s.recs[h].prev, h);
    QuietFirst(s, pow, s.mem, rs);
    QuietKnown(s, s.mem, rs);
    AppliedFields(s.mem, s.table, pow, s.table[h], rs[0].file, rs[0].meta);
    LinkedStays(s, pow, s.mem[s.table[h] := MeetOne(s, pow, s.mem, rs[0])], rs[1..], h);
  }

  /** Without a parent still, or with labels that follow from those of q. */
  predicate Follows(s: Start, pow: Proof, h: Hash, n: Node, q: Node) {
    n.pprev == 0 || (n.height == q.height + 1 && n.work == Add256(q.work, pow(Bits(s, h))))
  }

  /** Under a parent that has its own parent already a block gets labels that follow from it. */
  lemma {:induction false} UnderLinked(s: Start, pow: Proof, mem: Memory, rs: seq<Report>, h: Hash)
    requires Quiet(s) && QuietMem(s, pow, mem) && AllReported(s, rs) && h in s.table && !KeepsLink(s, h)
    requires s.recs[h].prev in s.table && s.table[h] in mem && s.table[s.recs[h].prev] in mem
    requires mem[s.table[s.recs[h].prev]].pprev != 0 && Follows(s, pow, h, mem[s.table[h]], mem[s.table[s.recs[h].prev]])
    ensures var m := QuietScanned(s, pow, mem, rs); Follows(s, pow, h, m[s.table[h]], m[s.table[s.recs[h].prev]])
    decreases |rs|
  {
    hide QuietScanned, Applied, Quiet, Add256, HeaderIncomplete;
    var prev := s.recs[h].prev;
    LinkedStays(s, pow, mem, rs, prev);
    if rs == [] {
      NothingMet(s, pow, mem);
    } else {
      QuietStepAt(s, pow, mem, rs, h);
      var front, r := rs[..|rs| - 1], rs[|rs| - 1];
      LinkedStays(s, pow, mem, front, prev);
      UnderLinked(s, pow, mem, front, h);
      if r.meta.hash == h {
        QuietRun(s, pow, mem, front);
        QuietHas(s, h);
        QuietKnown(s, mem, rs);
        var m := QuietScanned(s, pow, mem, front);
        assert QuietEntry(s, pow, h, m[s.table[h]]);
        AppliedFields(m, s.table, pow, s.table[h], r.file, r.meta);
      }
    }
  }

  /** When the parent is met first the block's labels follow from those the parent gets. */
  lemma ParentFirst(s: Start, pow: Proof, rs: seq<Report>, h: Hash)
    requires Quiet(s) && Covers(s, rs) && rs != [] && !KeepsLink(s, h) && !KeepsLink(s, s.recs[h].prev)
    requires s.recs[h].prev != h && rs[0].meta.hash == s.recs[h].prev
    ensures h in s.table && s.recs[h].prev in s.table
    ensures var m := QuietScanned(s, pow, s.mem, rs);
            var n, q := m[s.table[h]], m[s.table[s.recs[h].prev]];
            n.pprev != 0 && Follows(s, pow, h, n, q) && FromOldParent(s, pow, s.recs[h].prev, q)
  {
    hide QuietScanned, MeetOne, Follows, FromOldParent, KeepsLink, QuietEntry, Stirs;
    KeepsNot(s, h);
    var prev := s.recs[h].prev;
    QuietHas(s, h);
    QuietHas(s, prev);
    QuietTable(s, prev, h);
    QuietTable(s, h, prev);
    MetFirst(s, pow, s.mem, rs, prev);
    QuietFirst(s, pow, s.mem, rs);
    var m1 := s.mem[s.table[prev] := MeetOne(s, pow, s.mem, rs[0])];
    QuietStart(s, pow);
    QuietMeet(s, pow, s.mem, rs[0]);
    forall k | k in s.table ensures QuietEntry(s, pow, k, m1[s.table[k]]) {
      QuietTable(s, k, prev);
    }
    assert Follows(s, pow, h, m1[s.table[h]], m1[s.table[prev]]) by { NotYet(s, pow, h, m1[s.table[prev]]); }
    UnderLinked(s, pow, m1, rs[1..], h);
    var i :| 0 <= i < |rs| && rs[i].meta.hash == h;
    MetIsLinked(s, pow, s.mem, rs, i);
  }

  lemma KeepsNot(s: Start, h: Hash)
    requires Quiet(s) && !KeepsLink(s, h)
    ensures h in s.recs && h in Known(s) && s.recs[h].prev in Known(s) && s.table.Keys == Known(s)
  {
    forall k | k in Known(s) ensures k in s.table {
      QuietHas(s, k);
    }
  }

  lemma NotYet(s: Start, pow: Proof, h: Hash, q: Node)
    requires Had(s, h) && !KeepsLink(s, h)
    ensures Follows(s, pow, h, Old(s, h), q)
  {
  }

  lemma AddCancels(a: Work, b: Work, c: Work)
    requires Add256(a, c) == Add256(b, c)
    ensures a == b
  {
  }

  /** Met before its parent, and after it, an unsettled block gets different labels. */
  lemma UnsettledDiffers(s: Start, pow: Proof, rs: seq<Report>, rs': seq<Report>, h: Hash)
    requires Quiet(s) && Covers(s, rs) && Covers(s, rs') && h in s.table && !Settled(s, pow, h) && rs != [] && rs' != []
    requires rs[0].meta.hash == h && rs'[0].meta.hash == s.recs[h].prev
    ensures s.table[h] in s.mem
    ensures var n, n' := QuietScanned(s, pow, s.mem, rs)[s.table[h]], QuietScanned(s, pow, s.mem, rs')[s.table[h]];
            n.height != n'.height || n.work != n'.work
  {
    hide QuietScanned, Add256, Quiet;
    var prev := s.recs[h].prev;
    KeepsNot(s, h);
    KeepsNot(s, prev);
    QuietHas(s, h);
    QuietHas(s, prev);
    QuietHas(s, s.recs[prev].prev);
    QuietTable(s, h, prev);
    MetFirst(s, pow, s.mem, rs, h);
    ParentFirst(s, pow, rs', h);
    var q := QuietScanned(s, pow, s.mem, rs')[s.table[prev]];
    if Add256(Old(s, prev).work, pow(Bits(s, h))) == Add256(q.work, pow(Bits(s, h))) {
      AddCancels(Old(s, prev).work, q.work, pow(Bits(s, h)));
    }
  }

  /** In every order in which the blocks can be met the block gets the same labels. */
  ghost predicate OrderFree(s: Start, pow: Proof, h: Hash)
    requires Quiet(s) && h in s.table && s.table[h] in s.mem
  {
    forall rs, rs' :: Covers(s, rs) && Covers(s, rs') ==>
      SameLabels(QuietScanned(s, pow, s.mem, rs)[s.table[h]], QuietScanned(s, pow, s.mem, rs')[s.table[h]])
  }

  /** The labels of a block are the same in every order if and only if they are settled. */
  lemma SettledIffOrderFree(s: Start, pow: Proof, rs: seq<Report>, h: Hash)
    requires Quiet(s) && Covers(s, rs) && h in s.table
    ensures s.table[h] in s.mem && (Settled(s, pow, h) <==> OrderFree(s, pow, h))
  {
    hide QuietScanned, Settled, Quiet, KeepsLink, FromOldParent;
    QuietTable(s, h, h);
    if Settled(s, pow, h) {
      forall rs1, rs2 | Covers(s, rs1) && Covers(s, rs2)
        ensures SameLabels(QuietScanned(s, pow, s.mem, rs1)[s.table[h]], QuietScanned(s, pow, s.mem, rs2)[s.table[h]])
      {
        SettledExact(s, pow, rs1, h);
        SettledExact(s, pow, rs2, h);
        SettledSame(s, pow, h, QuietScanned(s, pow, s.mem, rs1)[s.table[h]], QuietScanned(s, pow, s.mem, rs2)[s.table[h]]);
      }
    } else {
      UnsettledParts(s, pow, h);
      var rs1 := InFront(s, rs, h);
      var rs2 := InFront(s, rs, s.recs[h].prev);
      UnsettledDiffers(s, pow, rs1, rs2, h);
    }
  }

  lemma SettledSame(s: Start, pow: Proof, h: Hash, n: Node, n': Node)
    requires Quiet(s) && h in s.table && SettledEntry(s, pow, h, n) && SettledEntry(s, pow, h, n')
    ensures SameLabels(n, n') && n.pprev == n'.pprev
  {
    hide Quiet, Add256;
  }

  lemma UnsettledParts(s: Start, pow: Proof, h: Hash)
    requires Quiet(s) && h in s.table && !Settled(s, pow, h)
    ensures h in s.recs && s.recs[h].prev in s.recs
  {
  }

  /** Blocks may be met more than once, so any of them can be met first. */
  lemma InFront(s: Start, rs: seq<Report>, h: Hash) returns (rs': seq<Report>)
    requires Covers(s, rs) && h in s.recs
    ensures Covers(s, rs') && rs' != [] && rs'[0].meta.hash == h
  {
    var i :| 0 <= i < |rs| && rs[i].meta.hash == h;
    rs' := [rs[i]] + rs;
    forall k | k in s.recs ensures exists j :: 0 <= j < |rs'| && rs'[j].meta.hash == k {
      var j :| 0 <= j < |rs| && rs[j].meta.hash == k;
      assert rs'[j + 1] == rs[j];
    }
  }

  /** Every block a pass over the files meets, in order. */
  ghost function ScanReports(disk: Disk, hashOf: HashOf): seq<Report> {
    Reports(disk, hashOf, Listing(disk, |disk|))
  }

  lemma {:induction false} ReportsGood(s: Start, disk: Disk, hashOf: HashOf, files: seq<nat>)
    requires Readable(disk) && IsCatalog(disk, hashOf, s.recs)
    requires forall i :: 0 <= i < |files| ==> files[i] < |disk| && Listed(disk, files[i])
    ensures AllReported(s, Reports(disk, hashOf, files))
    decreases |files|
  {
    hide ScanFrom, IsCatalog, GoodMeta;
    if files == [] {
    } else {
      var f := files[|files| - 1];
      ReportsGood(s, disk, hashOf, files[..|files| - 1]);
      forall i | 0 <= i < |Metas(disk, f, hashOf)| ensures Reported(s, Report(f, Metas(disk, f, hashOf)[i])) {
        MetaGood(disk, hashOf, s.recs, f, i);
        GoodReport(s, disk, f, Metas(disk, f, hashOf)[i]);
      }
    }
  }

  lemma GoodReport(s: Start, disk: Disk, f: nat, m: Meta)
    requires GoodMeta(s.recs, disk, f, m)
    ensures Reported(s, Report(f, m))
  {
  }

  lemma {:induction false} ReportsHave(disk: Disk, hashOf: HashOf, files: seq<nat>, j: nat, m: Meta)
    requires (forall i :: 0 <= i < |files| ==> files[i] < |disk|) && j < |files| && m in Metas(disk, files[j], hashOf)
    ensures exists i :: 0 <= i < |Reports(disk, hashOf, files)| && Reports(disk, hashOf, files)[i].meta == m
    decreases |files|
  {
    hide ScanFrom;
    var front, f := files[..|files| - 1], files[|files| - 1];
    var rs := Reports(disk, hashOf, front);
    assert Reports(disk, hashOf, files) == rs + FileReports(f, Metas(disk, f, hashOf));
    if j == |files| - 1 {
      var k :| 0 <= k < |Metas(disk, f, hashOf)| && Metas(disk, f, hashOf)[k] == m;
      assert Reports(disk, hashOf, files)[|rs| + k].meta == m;
    } else {
      ReportsHave(disk, hashOf, front, j, m);
      var k :| 0 <= k < |rs| && rs[k].meta == m;
      assert Reports(disk, hashOf, files)[k].meta == m;
    }
  }

  /** One pass meets every block of the records and no other. */
  lemma PassCovers(s: Start, disk: Disk, hashOf: HashOf)
    requires Readable(disk) && IsCatalog(disk, hashOf, s.recs)
    ensures Covers(s, ScanReports(disk, hashOf))
  {
    hide ScanFrom, Reports, Listing, IsCatalog;
    var files := Listing(disk, |disk|);
    forall i | 0 <= i < |files| ensures Listed(disk, files[i]) {
      assert files[i] in files;
    }
    ReportsGood(s, disk, hashOf, files);
    forall h | h in s.recs
      ensures exists i :: 0 <= i < |ScanReports(disk, hashOf)| && ScanReports(disk, hashOf)[i].meta.hash == h
    {
      BlockReported(s, disk, hashOf, h);
    }
  }

  lemma BlockReported(s: Start, disk: Disk, hashOf: HashOf, h: Hash)
    requires IsCatalog(disk, hashOf, s.recs) && h in s.recs
    ensures exists i :: 0 <= i < |ScanReports(disk, hashOf)| && ScanReports(disk, hashOf)[i].meta.hash == h
  {
    hide ScanFrom, Reports, Missing, Listing;
    var files := Listing(disk, |disk|);
    var f: nat, m :| Listed(disk, f) && m in Metas(disk, f, hashOf) && m.hash == h;
    assert f in files;
    var j :| 0 <= j < |files| && files[j] == f;
    ReportsHave(disk, hashOf, files, j, m);
    var i :| 0 <= i < |Reports(disk, hashOf, files)| && Reports(disk, hashOf, files)[i].meta == m;
    assert ScanReports(disk, hashOf)[i].meta == m;
  }

  /** The memory a quiet scan leaves is that of the blocks met in file order. */
  lemma QuietIs(s: Start, pow: Proof, mem: Memory, disk: Disk, hashOf: HashOf)
    requires Quiet(s) && Readable(disk) && IsCatalog(disk, hashOf, s.recs)
    requires MetOnDisk(s.mem, mem, s.table, pow, disk, hashOf, Listing(disk, |disk|))
    ensures Covers(s, ScanReports(disk, hashOf)) && mem == QuietScanned(s, pow, s.mem, ScanReports(disk, hashOf))
  {
    hide IsCatalog, Reports, MeetAll;
    PassCovers(s, disk, hashOf);
  }

  /** Entries with settled labels have them. */
  ghost predicate AllSettled(s: Start, pow: Proof, mem: Memory, table: map<Hash, Ptr>)
    requires Quiet(s)
  {
    && table == s.table && mem.Keys == s.mem.Keys
    && forall h :: h in s.table && Settled(s, pow, h) ==> SettledEntry(s, pow, h, mem[s.table[h]])
  }

  lemma QuietSettles(s: Start, pow: Proof, rs: seq<Report>)
    requires Quiet(s) && Covers(s, rs)
    ensures AllSettled(s, pow, QuietScanned(s, pow, s.mem, rs), s.table)
  {
    hide Settled, SettledEntry, QuietScanned, Quiet;
    forall h | h in s.table
      ensures s.table[h] in s.mem
      ensures Settled(s, pow, h) ==> SettledEntry(s, pow, h, QuietScanned(s, pow, s.mem, rs)[s.table[h]])
    {
      QuietTable(s, h, h);
      if Settled(s, pow, h) {
        SettledExact(s, pow, rs, h);
      }
    }
  }
}
