// Reading a compressed name (section 4.1.4 of RFC 1035).
//
// The loop of the source follows pointers wherever they lead, so on some
// messages it never ends; `Endless` names that outcome instead of excluding
// it, and EndlessIffCycles says exactly when it comes about.
module DnsName {
  import opened Bytes
  import opened Collections

  type Label = seq<byte>

  datatype NameResult = Malformed | Endless | Name(labels: seq<Label>, end: nat)

  // At most `fuel` turns of the loop, from offset off.
  function Walk(d: seq<byte>, off: nat, fuel: nat): NameResult
    decreases fuel
  {
    if fuel == 0 then Endless
    else if off >= |d| then Malformed
    else
      var l := d[off] as nat;
      if l == 0 then Name([], off + 1)
      else if l >= 0xC0 then
        if off + 2 > |d| then Malformed
        else
          match Walk(d, Target(d, off), fuel - 1)
          case Name(ls, _) => Name(ls, off + 2)
          case stop => stop
      else if l < 0x40 then
        if off + 1 + l > |d| then Malformed
        else
          match Walk(d, off + 1 + l, fuel - 1)
          case Name(ls, end) => Name([d[off + 1..off + 1 + l]] + ls, end)
          case stop => stop
      else Malformed
  }

  function Target(d: seq<byte>, off: nat): (t: nat)
    requires off + 2 <= |d|
    ensures t < 0x4000
  {
    Be16(d, off) % 0x4000
  }

  // What the loop arrives at, if it arrives.
  function ReadName(d: seq<byte>, off: nat): NameResult {
    Walk(d, off, |d| + 1)
  }

  // The dotted form.
  function Join(labels: seq<Label>): seq<byte> {
    if labels == [] then []
    else if |labels| == 1 then labels[0]
    else Join(labels[..|labels| - 1]) + ['.' as int as byte] + labels[|labels| - 1]
  }

  // ---- Endless means forever ----

  // Where the loop continues after the turn at off, if it does.
  function Next(d: seq<byte>, off: nat): (next: int)
    ensures next >= -1
    ensures next >= 0 ==> off < |d|
  {
    if off >= |d| || d[off] == 0 then -1
    else if d[off] >= 0xC0 then if off + 2 > |d| then -1 else Target(d, off)
    else if d[off] < 0x40 then if off + 1 + d[off] as nat > |d| then -1 else off + 1 + d[off] as nat
    else -1
  }

  // The offset after n turns.
  ghost function At(d: seq<byte>, off: nat, n: nat): (o: nat)
    requires Walk(d, off, n).Endless?
    decreases n
  {
    if n == 0 then off else At(d, Next(d, off), n - 1)
  }

  lemma {:induction false} FewerTurns(d: seq<byte>, off: nat, n: nat, m: nat)
    requires m <= n && Walk(d, off, n).Endless?
    ensures Walk(d, off, m).Endless?
    decreases m
  {
    if m > 0 {
      FewerTurns(d, Next(d, off), n - 1, m - 1);
    }
  }

  // More fuel does not change an answer.
  lemma {:induction false} MoreTurns(d: seq<byte>, off: nat, n: nat, m: nat)
    requires n <= m && !Walk(d, off, n).Endless?
    ensures Walk(d, off, m) == Walk(d, off, n)
    decreases n
  {
    if Next(d, off) >= 0 {
      MoreTurns(d, Next(d, off), n - 1, m - 1);
    }
  }

  lemma {:induction false} Chain(d: seq<byte>, off: nat, n: nat, m: nat)
    requires Walk(d, off, n).Endless?
    ensures Walk(d, off, n + m).Endless? <==> Walk(d, At(d, off, n), m).Endless?
    decreases n
  {
    if n > 0 {
      Chain(d, Next(d, off), n - 1, m);
    }
  }

  lemma {:induction false} AtInMessage(d: seq<byte>, off: nat, n: nat, i: nat)
    requires i < n && Walk(d, off, n).Endless?
    ensures Walk(d, off, i).Endless? && At(d, off, i) < |d|
    decreases i
  {
    if i > 0 {
      AtInMessage(d, Next(d, off), n - 1, i - 1);
    }
  }

  // An offset met again after a positive number of turns is met for ever.
  lemma {:induction false} LoopsForever(d: seq<byte>, off: nat, period: nat, m: nat)
    requires period > 0 && Walk(d, off, period).Endless? && At(d, off, period) == off
    ensures Walk(d, off, m).Endless?
    decreases m
  {
    if m <= period {
      FewerTurns(d, off, period, m);
    } else {
      LoopsForever(d, off, period, m - period);
      Chain(d, off, period, m - period);
    }
  }

  lemma {:induction false} AtAgain(d: seq<byte>, off: nat, i: nat, j: nat)
    requires i <= j && Walk(d, off, j).Endless? && Walk(d, off, i).Endless?
    ensures Walk(d, At(d, off, i), j - i).Endless?
    ensures At(d, At(d, off, i), j - i) == At(d, off, j)
    decreases i
  {
    if i > 0 {
      AtAgain(d, Next(d, off), i - 1, j - 1);
    }
  }

  lemma {:induction false} Pigeonhole(s: seq<nat>, n: nat) returns (i: nat, j: nat)
    requires |s| > n && forall k | 0 <= k < |s| :: s[k] < n
    ensures i < j < |s| && s[i] == s[j]
  {
    if k, m :| 0 <= k < m < |s| && s[k] == s[m] {
      i, j := k, m;
    } else {
      DistinctBelow(s, n);
      assert false;
    }
  }

  lemma {:induction false} DistinctBelow(s: seq<nat>, n: nat)
    requires forall k | 0 <= k < |s| :: s[k] < n
    requires forall k, m | 0 <= k < m < |s| :: s[k] != s[m]
    ensures |s| <= n
    decreases n
  {
    if s != [] {
      assert s[0] < n;
      if k :| 0 <= k < |s| && s[k] == n - 1 {
        DistinctBelow(s[..k] + s[k + 1..], n - 1);
      } else {
        DistinctBelow(s, n - 1);
      }
    }
  }

  // The offset n turns on from off, -1 once the loop has stopped.
  function Trail(d: seq<byte>, off: nat, n: nat): (o: int)
    ensures o >= -1
    decreases n
  {
    if n == 0 then off else if Next(d, off) < 0 then -1 else Trail(d, Next(d, off), n - 1)
  }

  // The loop comes back to an offset it has been at.
  ghost predicate Cycles(d: seq<byte>, off: nat) {
    exists i: nat, j: nat :: i < j && Trail(d, off, i) == Trail(d, off, j) != -1
  }

  lemma {:induction false} TrailIsAt(d: seq<byte>, off: nat, n: nat)
    ensures Walk(d, off, n).Endless? <==> Trail(d, off, n) != -1
    ensures Walk(d, off, n).Endless? ==> Trail(d, off, n) == At(d, off, n)
    decreases n
  {
    if n > 0 && Next(d, off) >= 0 {
      TrailIsAt(d, Next(d, off), n - 1);
    }
  }

  // Still running after |d| + 1 turns, the loop has been somewhere twice.
  lemma EndlessCycles(d: seq<byte>, off: nat) returns (i: nat, j: nat)
    requires ReadName(d, off).Endless?
    ensures i < j && Trail(d, off, i) == Trail(d, off, j) != -1
  {
    hide Walk, Next, At, Trail;
    var n := |d| + 1;
    forall k | 0 <= k < n
      ensures Trail(d, off, k) != -1 && Trail(d, off, k) < |d|
    {
      AtInMessage(d, off, n, k);
      TrailIsAt(d, off, k);
    }
    var visited := seq(n, k requires 0 <= k < n => Trail(d, off, k) as nat);
    i, j := Pigeonhole(visited, |d|);
    assert visited[i] == Trail(d, off, i) && visited[j] == Trail(d, off, j);
  }

  // Having been somewhere twice, it runs for ever.
  lemma CyclesForever(d: seq<byte>, off: nat, i: nat, j: nat, m: nat)
    requires i < j && Trail(d, off, i) == Trail(d, off, j) != -1
    ensures Walk(d, off, m).Endless?
  {
    hide Walk, Next, At, Trail;
    TrailIsAt(d, off, i);
    TrailIsAt(d, off, j);
    AtAgain(d, off, i, j);
    if i <= m {
      LoopsForever(d, At(d, off, i), j - i, m - i);
      Chain(d, off, i, m - i);
    } else {
      FewerTurns(d, off, i, m);
    }
  }

  // The loop runs for ever if and only if it comes back to where it has been.
  lemma EndlessIffCycles(d: seq<byte>, off: nat)
    ensures ReadName(d, off).Endless? <==> Cycles(d, off)
    ensures (forall m: nat :: Walk(d, off, m).Endless?) <==> Cycles(d, off)
  {
    hide Walk, Trail;
    assert !ReadName(d, off).Endless? ==> !Walk(d, off, |d| + 1).Endless?;
    if ReadName(d, off).Endless? {
      var i, j := EndlessCycles(d, off);
    }
    if i: nat, j: nat :| i < j && Trail(d, off, i) == Trail(d, off, j) != -1 {
      forall m: nat
        ensures Walk(d, off, m).Endless?
      {
        CyclesForever(d, off, i, j, m);
      }
    }
  }

  // A pointer to itself.
  lemma SelfPointerIsEndless()
    ensures Cycles([0xC0, 0], 0) && ReadName([0xC0, 0], 0).Endless?
  {
    var d: seq<byte> := [0xC0, 0];
    assert Next(d, 0) == 0;
    assert Trail(d, 0, 0) == 0 && Trail(d, 0, 1) == 0;
    EndlessIffCycles(d, 0);
  }

  // So ReadName is the answer of the loop whenever the loop has one.
  lemma EndlessIsForever(d: seq<byte>, off: nat, m: nat)
    ensures ReadName(d, off).Endless? ==> Walk(d, off, m).Endless?
    ensures !Walk(d, off, m).Endless? ==> ReadName(d, off) == Walk(d, off, m)
  {
    hide Walk, Next, Trail;
    var n := |d| + 1;
    if ReadName(d, off).Endless? {
      var i, j := EndlessCycles(d, off);
      CyclesForever(d, off, i, j, m);
    } else if n <= m {
      MoreTurns(d, off, n, m);
    } else if !Walk(d, off, m).Endless? {
      MoreTurns(d, off, m, n);
    }
  }

  // ---- One turn of a read ----

  lemma ReadRoot(d: seq<byte>, off: nat)
    requires off < |d| && d[off] == 0
    ensures ReadName(d, off) == Name([], off + 1)
  {
  }

  lemma ReadLabel(d: seq<byte>, off: nat, next: nat, l: Label)
    requires off < next <= |d| && 0 < d[off] < 0x40 && d[off] as nat == next - off - 1 && l == d[off + 1..next]
    requires ReadName(d, next).Name?
    ensures ReadName(d, off) == Name([l] + ReadName(d, next).labels, ReadName(d, next).end)
  {
    EndlessIsForever(d, off, |d| + 2);
  }

  lemma ReadPointer(d: seq<byte>, off: nat, target: nat)
    requires off + 2 <= |d| && d[off] >= 0xC0 && target == Target(d, off)
    requires ReadName(d, target).Name?
    ensures ReadName(d, off) == Name(ReadName(d, target).labels, off + 2)
  {
    EndlessIsForever(d, off, |d| + 2);
  }

  lemma ReadShort(d: seq<byte>, off: nat)
    requires off < |d| && 0 < d[off] < 0x40 && off + 1 + d[off] as nat > |d|
    ensures ReadName(d, off) == Malformed
  {
  }

  // ---- The loop itself ----

  // The loop's answer when it holds `labels` and `orig` (-1 until the first
  // pointer) and the walk from here answers `ahead`.
  function Resume(labels: seq<Label>, orig: int, ahead: NameResult): NameResult
    requires orig >= -1
  {
    match ahead
    case Name(ls, e) => Name(labels + ls, if orig == -1 then e else orig)
    case stop => stop
  }

  lemma PointerResumes(d: seq<byte>, off: nat, n: nat, labels: seq<Label>, orig: int)
    requires orig >= -1 && n > 0 && off + 2 <= |d| && d[off] >= 0xC0
    ensures Resume(labels, orig, Walk(d, off, n)) ==
            Resume(labels, if orig == -1 then off + 2 else orig, Walk(d, Target(d, off), n - 1))
  {
  }

  lemma LabelResumes(d: seq<byte>, off: nat, next: nat, n: nat, labels: seq<Label>, orig: int)
    requires orig >= -1 && n > 0 && off < next <= |d| && 0 < d[off] < 0x40 && d[off] as nat == next - off - 1
    ensures Resume(labels, orig, Walk(d, off, n)) == Resume(labels + [d[off + 1..next]], orig, Walk(d, next, n - 1))
  {
    var ahead := Walk(d, next, n - 1);
    if ahead.Name? {
      Assoc(labels, [d[off + 1..next]], ahead.labels);
    }
  }

  lemma LastTurn(d: seq<byte>, off: nat, n: nat)
    requires n > 0 && Next(d, off) == -1
    ensures Walk(d, off, n) == if off < |d| && d[off] == 0 then Name([], off + 1) else Malformed
  {
  }

  // The loop's answer where it stops, and that it has turns left until then.
  lemma StopResumes(d: seq<byte>, off: nat, n: nat, labels: seq<Label>, orig: int)
    requires orig >= -1 && !Resume(labels, orig, Walk(d, off, n)).Endless?
    ensures n > 0
    ensures Next(d, off) == -1 ==>
              Resume(labels, orig, Walk(d, off, n)) ==
              if off < |d| && d[off] == 0 then Name(labels, if orig == -1 then off + 1 else orig) else Malformed
  {
    if Next(d, off) == -1 {
      LastTurn(d, off, n);
      NothingBefore(labels);
    }
  }

  lemma StartResumes(labels: NameResult)
    ensures Resume([], -1, labels) == labels
  {
    if labels.Name? {
      NothingBefore(labels.labels);
    }
  }

  method Read(d: seq<byte>, start: nat) returns (r: NameResult)
    requires !ReadName(d, start).Endless?
    ensures r == ReadName(d, start)
  {
    hide Target;
    var labels: seq<Label> := [];
    var origOff: int := -1;
    var off: nat := start;
    ghost var fuel: nat := |d| + 1;
    ghost var goal := ReadName(d, start);
    StartResumes(goal);
    while true
      invariant origOff >= -1
      invariant goal == Resume(labels, origOff, Walk(d, off, fuel))
      decreases fuel
    {
      StopResumes(d, off, fuel, labels, origOff);
      hide Walk, Resume;
      if off >= |d| {
        return Malformed;
      }
      var l := d[off] as nat;
      if l == 0 {
        off := off + 1;
        if origOff != -1 {
          off := origOff;
        }
        return Name(labels, off);
      } else if l >= 0xC0 {
        if off + 2 > |d| {
          return Malformed;
        }
        PointerResumes(d, off, fuel, labels, origOff);
        if origOff == -1 {
          origOff := off + 2;
        }
        off := Target(d, off);
      } else if l < 0x40 {
        if off + 1 + l > |d| {
          return Malformed;
        }
        LabelResumes(d, off, off + 1 + l, fuel, labels, origOff);
        off := off + 1;
        labels := labels + [d[off..off + l]];
        off := off + l;
      } else {
        return Malformed;
      }
      fuel := fuel - 1;
    }
  }

  // ---- Writing a name ----

  // Literal labels closed by the root byte, or by a pointer to a place where
  // the rest of the name is written: an earlier one as RFC 1035 has it, but the
  // loop takes any.
  datatype Coding =
    | Plain(head: seq<Label>)
    | Compressed(head: seq<Label>, target: nat, rest: Coding)

  function Labels(c: Coding): seq<Label> {
    match c
    case Plain(ls) => ls
    case Compressed(ls, _, rest) => ls + Labels(rest)
  }

  predicate ValidLabels(ls: seq<Label>) {
    forall l | l in ls :: 0 < |l| < 0x40
  }

  function EncodeLabels(ls: seq<Label>): seq<byte>
    requires ValidLabels(ls)
  {
    if ls == [] then [] else [|ls[0]| as byte] + ls[0] + EncodeLabels(ls[1..])
  }

  function EncodeTail(c: Coding): seq<byte>
    requires c.Compressed? ==> c.target < 0x4000
  {
    if c.Plain? then [0] else PutBe16(0xC000 + c.target)
  }

  // The bytes of c stand at off, and the rest of the name stands where the
  // pointer leads.
  ghost predicate Written(d: seq<byte>, off: nat, c: Coding)
    decreases c
  {
    && ValidLabels(c.head)
    && (c.Compressed? ==> c.target < 0x4000 && Written(d, c.target, c.rest))
    && Stands(d, off, EncodeLabels(c.head) + EncodeTail(c))
  }

  // The offset just past the root byte or the first pointer.
  function End(off: nat, c: Coding): (e: nat)
    requires ValidLabels(c.head)
    ensures e > off
  {
    off + |EncodeLabels(c.head)| + if c.Plain? then 1 else 2
  }

  function Turns(c: Coding): nat {
    |c.head| + 1 + if c.Plain? then 0 else Turns(c.rest)
  }

  lemma FirstLabel(d: seq<byte>, off: nat, ls: seq<Label>)
    requires ls != [] && ValidLabels(ls) && Stands(d, off, EncodeLabels(ls))
    ensures var l := ls[0];
            && d[off] as nat == |l|
            && off + 1 + |l| <= |d| && d[off + 1..off + 1 + |l|] == l
            && Stands(d, off + 1 + |l|, EncodeLabels(ls[1..]))
  {
    StandsAppend(d, off, [|ls[0]| as byte] + ls[0], EncodeLabels(ls[1..]));
    StandsAppend(d, off, [|ls[0]| as byte], ls[0]);
    StandsAt(d, off, [|ls[0]| as byte], 0);
  }

  lemma LabelTurn(d: seq<byte>, off: nat, next: nat, n: nat, ls: seq<Label>, e: nat)
    requires n > 0 && off < next <= |d| && 0 < d[off] < 0x40 && d[off] as nat == next - off - 1
    requires Walk(d, next, n - 1) == Name(ls, e)
    ensures Walk(d, off, n) == Name([d[off + 1..next]] + ls, e)
  {
  }

  lemma RootTurn(d: seq<byte>, off: nat)
    requires Stands(d, off, [0])
    ensures Walk(d, off, 1) == Name([], off + 1)
  {
    StandsAt(d, off, [0], 0);
  }

  lemma PointerTurn(d: seq<byte>, off: nat, target: nat, n: nat, ls: seq<Label>, e: nat)
    requires target < 0x4000 && Stands(d, off, PutBe16(0xC000 + target))
    requires Walk(d, target, n) == Name(ls, e)
    ensures Walk(d, off, n + 1) == Name(ls, off + 2)
  {
    StandsAt(d, off, PutBe16(0xC000 + target), 0);
    StandsAt(d, off, PutBe16(0xC000 + target), 1);
    assert Target(d, off) == target;
  }

  // From the start of the code of ls, the loop takes one turn per label.
  lemma {:induction false} WalkLabels(d: seq<byte>, off: nat, ls: seq<Label>, mid: nat, n: nat, t: nat, rest: seq<Label>, e: nat)
    requires ValidLabels(ls) && Stands(d, off, EncodeLabels(ls))
    requires mid == off + |EncodeLabels(ls)| && t == |ls| + n
    requires Walk(d, mid, n) == Name(rest, e)
    ensures Walk(d, off, t) == Name(ls + rest, e)
    decreases |ls|
  {
    hide Walk;
    if ls == [] {
      NothingBefore(rest);
    } else {
      var next := off + 1 + |ls[0]|;
      FirstLabel(d, off, ls);
      WalkLabels(d, next, ls[1..], mid, n, t - 1, rest, e);
      LabelTurn(d, off, next, t, ls[1..] + rest, e);
      HeadFirst(ls, rest);
    }
  }

  lemma WalkPlain(d: seq<byte>, off: nat, ls: seq<Label>)
    requires Written(d, off, Plain(ls))
    ensures Walk(d, off, |ls| + 1) == Name(ls, End(off, Plain(ls)))
  {
    var tail := off + |EncodeLabels(ls)|;
    StandsAppend(d, off, EncodeLabels(ls), [0]);
    RootTurn(d, tail);
    NothingBefore(ls);
    WalkLabels(d, off, ls, tail, 1, |ls| + 1, [], tail + 1);
  }

  lemma WalkCompressed(d: seq<byte>, off: nat, c: Coding, n: nat, t: nat, labels: seq<Label>, e: nat)
    requires c.Compressed? && Written(d, off, c)
    requires Walk(d, c.target, n) == Name(labels, e) && t == |c.head| + 1 + n
    ensures Walk(d, off, t) == Name(c.head + labels, End(off, c))
  {
    hide Walk, Target;
    var tail := off + |EncodeLabels(c.head)|;
    StandsAppend(d, off, EncodeLabels(c.head), PutBe16(0xC000 + c.target));
    PointerTurn(d, tail, c.target, n, labels, e);
    WalkLabels(d, off, c.head, tail, n + 1, t, labels, tail + 2);
  }

  lemma {:induction false} WalkWritten(d: seq<byte>, off: nat, c: Coding)
    requires Written(d, off, c)
    ensures Walk(d, off, Turns(c)) == Name(Labels(c), End(off, c))
    decreases c
  {
    match c {
      case Plain(ls) =>
        WalkPlain(d, off, ls);
      case Compressed(ls, target, rest) =>
        WalkWritten(d, target, rest);
        WalkCompressed(d, off, c, Turns(rest), Turns(c), Labels(rest), End(target, rest));
    }
  }

  // Reading undoes writing, whatever else the message holds: the loop ends
  // with exactly the labels written and with the offset just past them.
  lemma ReadInvertsWriting(d: seq<byte>, off: nat, c: Coding)
    requires Written(d, off, c)
    ensures ReadName(d, off) == Name(Labels(c), End(off, c))
    ensures off < End(off, c) <= |d|
  {
    WalkWritten(d, off, c);
    EndlessIsForever(d, off, Turns(c));
  }

  lemma AcceptedTurn(d: seq<byte>, off: nat, n: nat)
    requires Walk(d, off, n).Name?
    ensures n > 0 && off < |d|
    ensures Next(d, off) < 0 ==> d[off] == 0 && Walk(d, off, n) == Name([], off + 1)
    ensures Next(d, off) >= 0 && d[off] >= 0xC0 ==>
              var ahead := Walk(d, Next(d, off), n - 1);
              ahead.Name? && Walk(d, off, n) == Name(ahead.labels, off + 2) &&
              off + 2 <= |d| && Next(d, off) == Target(d, off)
    ensures Next(d, off) >= 0 && d[off] < 0xC0 ==>
              var ahead := Walk(d, Next(d, off), n - 1);
              && 0 < d[off] < 0x40 && Next(d, off) == off + 1 + d[off] as nat <= |d|
              && ahead.Name? && Walk(d, off, n) == Name([d[off + 1..Next(d, off)]] + ahead.labels, ahead.end)
  {
    hide Target;
  }

  lemma RootWritten(d: seq<byte>, off: nat)
    requires off < |d| && d[off] == 0
    ensures Written(d, off, Plain([])) && Labels(Plain([])) == [] && End(off, Plain([])) == off + 1
  {
    assert d[off..off + 1] == [0];
    NothingBefore(EncodeTail(Plain([])));
  }

  // Whatever the loop accepts is a written name.
  lemma {:induction false} AcceptedIsWritten(d: seq<byte>, off: nat, n: nat) returns (c: Coding)
    requires Walk(d, off, n).Name?
    ensures Written(d, off, c) && Walk(d, off, n) == Name(Labels(c), End(off, c))
    decreases n
  {
    var next := Next(d, off);
    AcceptedTurn(d, off, n);
    hide Walk, Written, Next, Target, Labels, EncodeLabels;
    if next < 0 {
      RootWritten(d, off);
      c := Plain([]);
    } else if d[off] >= 0xC0 {
      var rest := AcceptedIsWritten(d, next, n - 1);
      c := AddPointer(d, off, next, rest);
    } else {
      var more := AcceptedIsWritten(d, next, n - 1);
      c := AddLabel(d, off, next, more);
    }
  }

  lemma PointerBytes(d: seq<byte>, off: nat)
    requires off + 2 <= |d| && d[off] >= 0xC0
    ensures Stands(d, off, PutBe16(0xC000 + Target(d, off)))
  {
    var v := Be16(d, off);
    assert 0xC000 + Target(d, off) == v;
    assert v / 256 == d[off] as nat && v % 256 == d[off + 1] as nat;
    assert d[off..off + 2] == [d[off], d[off + 1]];
  }

  lemma AddPointer(d: seq<byte>, off: nat, target: nat, rest: Coding) returns (c: Coding)
    requires off + 2 <= |d| && d[off] >= 0xC0 && target == Target(d, off)
    requires Written(d, target, rest)
    ensures Written(d, off, c)
    ensures Labels(c) == Labels(rest) && End(off, c) == off + 2
  {
    hide PutBe16, Target;
    c := Compressed([], target, rest);
    PointerBytes(d, off);
    NothingBefore(EncodeTail(c));
    NothingBefore(Labels(rest));
  }

  lemma AddLabel(d: seq<byte>, off: nat, next: nat, more: Coding) returns (c: Coding)
    requires off < next <= |d| && next == off + 1 + d[off] as nat && 0 < d[off] < 0x40
    requires Written(d, next, more)
    ensures Written(d, off, c)
    ensures Labels(c) == [d[off + 1..next]] + Labels(more) && End(off, c) == End(next, more)
  {
    hide EncodeLabels;
    var l := d[off + 1..next];
    var head := [l] + more.head;
    EncodeOneMore(l, more.head);
    c := if more.Plain? then Plain(head) else Compressed(head, more.target, more.rest);
    var tail := EncodeLabels(more.head) + EncodeTail(more);
    StandsAppend(d, off, [d[off]], l);
    StandsAppend(d, off, [d[off]] + l, tail);
    Assoc([d[off]] + l, EncodeLabels(more.head), EncodeTail(more));
    if more.Compressed? {
      Assoc([l], more.head, Labels(more.rest));
    }
  }

  lemma EncodeOneMore(l: Label, ls: seq<Label>)
    requires ValidLabels(ls) && 0 < |l| < 0x40
    ensures ValidLabels([l] + ls)
    ensures EncodeLabels([l] + ls) == [|l| as byte] + l + EncodeLabels(ls)
  {
    assert ([l] + ls)[1..] == ls;
  }

  // On every message: the loop returns (labels, end) if and only if that name
  // is written at off.
  lemma ReadsExactlyTheWritten(d: seq<byte>, off: nat)
    ensures forall labels, end ::
              ReadName(d, off) == Name(labels, end) <==>
              exists c :: Written(d, off, c) && Labels(c) == labels && End(off, c) == end
  {
    forall labels, end
      ensures ReadName(d, off) == Name(labels, end) <==>
              exists c :: Written(d, off, c) && Labels(c) == labels && End(off, c) == end
    {
      if ReadName(d, off) == Name(labels, end) {
        var c := AcceptedIsWritten(d, off, |d| + 1);
        assert Written(d, off, c);
      }
      forall c | Written(d, off, c) && Labels(c) == labels && End(off, c) == end
        ensures ReadName(d, off) == Name(labels, end)
      {
        ReadInvertsWriting(d, off, c);
      }
    }
  }

  // ---- Prior pointers ----

  // Every pointer the loop meets from off leads strictly before the start of
  // the labels being read.
  ghost predicate PriorPointers(d: seq<byte>, start: nat, off: nat)
    requires start <= off
    decreases start, |d| - off
  {
    Next(d, off) >= 0 ==>
      if d[off] >= 0xC0 then Next(d, off) < start && PriorPointers(d, Next(d, off), Next(d, off))
      else PriorPointers(d, start, Next(d, off))
  }

  lemma {:induction false} PriorPointersStop(d: seq<byte>, start: nat, off: nat) returns (n: nat)
    requires start <= off && PriorPointers(d, start, off)
    ensures !Walk(d, off, n).Endless?
    decreases start, |d| - off
  {
    var next := Next(d, off);
    if next < 0 {
      n := 1;
    } else {
      var m := PriorPointersStop(d, if d[off] >= 0xC0 then next else start, next);
      n := m + 1;
    }
  }

  // With the pointers RFC 1035 allows, the loop always ends.
  lemma PriorPointersEnd(d: seq<byte>, off: nat)
    requires PriorPointers(d, off, off)
    ensures !ReadName(d, off).Endless? && !Cycles(d, off)
  {
    var n := PriorPointersStop(d, off, off);
    EndlessIsForever(d, off, n);
    EndlessIffCycles(d, off);
  }
}
