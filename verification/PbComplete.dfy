/**
 What an accepted message must contain: its required fields, as far as they are tracked, and
 fixed-count arrays only whole.
 */
module PbComplete {
  import opened Common
  import opened PbVarint
  import opened PbMessage
  import opened PbParse

  /** The tags of the records, in order. */
  ghost function Tags(d: MsgDesc, s: seq<byte>, p: Progress): seq<nat>
    requires WellFormed(d) && Typed(d, p.m) && ParseFields(d, s, p).Some?
    decreases |s|
  {
    if s == [] then []
    else
      var r := ParseRecord(d, s, p).value;
      [Decode32(s).value.0 / 8] + Tags(d, r.1, r.0)
  }

  // ----- required fields -----

  /** The required fields that come before field i. */
  ghost function RequiredUpTo(d: MsgDesc, i: nat): set<nat>
    requires i <= |d.fields|
  {
    set j | 0 <= j < i && d.fields[j].htype.Required?
  }

  lemma {:induction false} RequiredCount(d: MsgDesc, i: nat)
    requires i <= |d.fields|
    ensures |RequiredUpTo(d, i)| == RequiredBefore(d.fields, i)
  {
    if i == 0 {
      assert RequiredUpTo(d, 0) == {};
    } else {
      RequiredCount(d, i - 1);
      assert RequiredUpTo(d, i) == RequiredUpTo(d, i - 1) + if d.fields[i - 1].htype.Required? then {i - 1} else {};
    }
  }

  lemma {:induction false} RequiredGrows(fields: seq<Field>, i: nat, j: nat)
    requires i <= j <= |fields|
    ensures RequiredBefore(fields, i) <= RequiredBefore(fields, j)
    ensures i < j && fields[i].htype.Required? ==> RequiredBefore(fields, i) < RequiredBefore(fields, j)
    decreases j - i
  {
    if i < j {
      RequiredGrows(fields, i, j - 1);
    }
  }

  /** Field i is the k-th required field. */
  ghost predicate IsRequired(d: MsgDesc, i: nat, k: nat) {
    i < |d.fields| && d.fields[i].htype.Required? && RequiredBefore(d.fields, i) == k
  }

  lemma {:induction false} RequiredAt(d: MsgDesc, k: nat, n: nat) returns (i: nat)
    requires n <= |d.fields| && k < RequiredBefore(d.fields, n)
    ensures IsRequired(d, i, k)
    decreases n
  {
    if RequiredBefore(d.fields, n - 1) == k {
      i := n - 1;
    } else {
      i := RequiredAt(d, k, n - 1);
    }
  }

  lemma RequiredOnce(d: MsgDesc, i: nat, j: nat, k: nat)
    requires IsRequired(d, i, k) && IsRequired(d, j, k)
    ensures i == j
  {
    RequiredGrows(d.fields, if i < j then i else j, if i < j then j else i);
  }

  /** One record notes its own field if that is among the first 64 required ones, and nothing else. */
  lemma RecordNotes(d: MsgDesc, s: seq<byte>, p: Progress, i: nat, k: nat)
    requires WellFormed(d) && Typed(d, p.m) && ParseRecord(d, s, p).Some? && IsRequired(d, i, k)
    ensures k in ParseRecord(d, s, p).value.0.seen <==> k in p.seen || (k < 64 && Decode32(s).value.0 / 8 == d.fields[i].tag)
  {
    var (key, tail) := Decode32(s).value;
    var t := Find(d.fields, key / 8);
    if t < |d.fields| {
      assert ParseRecord(d, s, p) == ParseKnown(d, t, key % 8, tail, p);
      if t != i && IsRequired(d, t, k) {
        RequiredOnce(d, i, t, k);
      }
      assert key / 8 == d.fields[i].tag <==> t == i;
    }
  }

  lemma {:induction false} FieldsNote(d: MsgDesc, s: seq<byte>, p: Progress, i: nat, k: nat)
    requires WellFormed(d) && Typed(d, p.m) && ParseFields(d, s, p).Some? && IsRequired(d, i, k)
    ensures k in ParseFields(d, s, p).value.seen <==> k in p.seen || (k < 64 && d.fields[i].tag in Tags(d, s, p))
    decreases |s|
  {
    if s != [] {
      var r := ParseRecord(d, s, p).value;
      RecordNotes(d, s, p, i, k);
      FieldsNote(d, r.1, r.0, i, k);
    }
  }

  /** Every required field with fewer than 64 required ones before it has a record. */
  ghost predicate HasRequired(d: MsgDesc, tags: seq<nat>) {
    forall i :: 0 <= i < |d.fields| && d.fields[i].htype.Required? && |RequiredUpTo(d, i)| < 64 ==> d.fields[i].tag in tags
  }

  /** When a message is accepted: its records are, the required fields are there, and no fixed-count array is broken off. */
  lemma AcceptedIff(d: MsgDesc, s: seq<byte>, m: Msg, init: bool)
    requires WellFormed(d) && Typed(d, m)
    ensures ParseMsg(d, s, m, init).Some? <==>
            && ParseFields(d, s, Start(d, m, init)).Some?
            && HasRequired(d, Tags(d, s, Start(d, m, init)))
            && var q := ParseFields(d, s, Start(d, m, init)).value;
               q.fixedField == NO_FIELD || q.fixedSize == q.fixedTotal
  {
    var p := Start(d, m, init);
    if ParseFields(d, s, p).Some? {
      var q, count := ParseFields(d, s, p).value, Min(RequiredBefore(d.fields, |d.fields|), MAX_REQUIRED);
      if Complete(d, q) {
        forall i | 0 <= i < |d.fields| && d.fields[i].htype.Required? && |RequiredUpTo(d, i)| < 64
          ensures d.fields[i].tag in Tags(d, s, p)
        {
          RequiredCount(d, i);
          RequiredGrows(d.fields, i, |d.fields|);
          FieldsNote(d, s, p, i, RequiredBefore(d.fields, i));
        }
      }
      if HasRequired(d, Tags(d, s, p)) {
        forall k | 0 <= k < count
          ensures k in q.seen
        {
          var i := RequiredAt(d, k, |d.fields|);
          RequiredCount(d, i);
          FieldsNote(d, s, p, i, k);
        }
      }
    }
  }

  // ----- fixed-count arrays -----

  function Running(p: Progress, i: nat): nat {
    if p.fixedField == i then p.fixedSize else 0
  }

  /** Some record writes position j of array field i: it lies between the running counts around it. */
  ghost predicate Writes(d: MsgDesc, s: seq<byte>, p: Progress, i: nat, j: nat)
    requires WellFormed(d) && Typed(d, p.m) && ParseFields(d, s, p).Some?
    decreases |s|
  {
    s != [] &&
    var r := ParseRecord(d, s, p).value;
    || (Find(d.fields, Decode32(s).value.0 / 8) == i && Running(p, i) <= j < Running(r.0, i))
    || Writes(d, r.1, r.0, i, j)
  }

  /** The running total is that of the field being filled. */
  ghost predicate Tracking(d: MsgDesc, p: Progress) {
    p.fixedField == NO_FIELD || (p.fixedField < |d.fields| && d.fields[p.fixedField].htype.FixArray? && p.fixedTotal == d.fields[p.fixedField].arraySize)
  }

  lemma OthersKeepSize(f: Field, unions: nat, wireType: nat, s: seq<byte>, slot: Slot, which: seq<nat>, fixedSize: nat)
    requires FieldOk(f, unions) && TypedSlot(f, slot) && |which| == unions && !f.htype.FixArray?
    requires ParseSlot(f, unions, wireType, s, slot, which, fixedSize).Some?
    ensures ParseSlot(f, unions, wireType, s, slot, which, fixedSize).value.fixedSize == fixedSize
  {
  }

  /** One record goes on with the array, or leaves it alone, or begins another one if it is whole. */
  lemma RecordTracks(d: MsgDesc, s: seq<byte>, p: Progress, i: nat)
    requires WellFormed(d) && Typed(d, p.m) && ParseRecord(d, s, p).Some? && Tracking(d, p)
    requires i < |d.fields| && d.fields[i].htype.FixArray?
    ensures var q := ParseRecord(d, s, p).value.0;
            && Tracking(d, q)
            && if Find(d.fields, Decode32(s).value.0 / 8) == i then q.fixedField == i
               else (q.fixedField == p.fixedField && q.fixedSize == p.fixedSize)
                    || (q.fixedField != i && (p.fixedField == i ==> p.fixedSize == p.fixedTotal))
  {
    var (key, tail) := Decode32(s).value;
    var t := Find(d.fields, key / 8);
    if t < |d.fields| {
      assert ParseRecord(d, s, p) == ParseKnown(d, t, key % 8, tail, p);
      if !d.fields[t].htype.FixArray? {
        OthersKeepSize(d.fields[t], d.unions, key % 8, tail, p.m.slots[t], p.m.which, p.fixedSize);
      }
    }
  }

  lemma FirstTag(d: MsgDesc, s: seq<byte>, p: Progress, i: nat)
    requires WellFormed(d) && Typed(d, p.m) && ParseFields(d, s, p).Some? && s != [] && i < |d.fields|
    ensures var r := ParseRecord(d, s, p).value;
            d.fields[i].tag in Tags(d, s, p) <==> Find(d.fields, Decode32(s).value.0 / 8) == i || d.fields[i].tag in Tags(d, r.1, r.0)
  {
  }

  /** An array whose records are over does not become the one being filled. */
  lemma {:induction false} NeverBack(d: MsgDesc, s: seq<byte>, p: Progress, i: nat)
    requires WellFormed(d) && Typed(d, p.m) && ParseFields(d, s, p).Some? && Tracking(d, p)
    requires i < |d.fields| && d.fields[i].htype.FixArray? && d.fields[i].tag !in Tags(d, s, p) && p.fixedField != i
    ensures ParseFields(d, s, p).value.fixedField != i
    decreases |s|
  {
    if s != [] {
      RecordTracks(d, s, p, i);
      FirstTag(d, s, p, i);
      NeverBack(d, ParseRecord(d, s, p).value.1, ParseRecord(d, s, p).value.0, i);
    }
  }

  /** And is whole when another one was begun. */
  lemma {:induction false} Untouched(d: MsgDesc, s: seq<byte>, p: Progress, i: nat)
    requires WellFormed(d) && Typed(d, p.m) && ParseFields(d, s, p).Some? && Tracking(d, p)
    requires i < |d.fields| && d.fields[i].htype.FixArray? && d.fields[i].tag !in Tags(d, s, p) && p.fixedField == i
    ensures var q := ParseFields(d, s, p).value;
            if q.fixedField == i then q.fixedSize == p.fixedSize else p.fixedSize == p.fixedTotal
    decreases |s|
  {
    if s != [] {
      var r := ParseRecord(d, s, p).value;
      RecordTracks(d, s, p, i);
      FirstTag(d, s, p, i);
      if r.0.fixedField == i {
        Untouched(d, r.1, r.0, i);
      } else {
        NeverBack(d, r.1, r.0, i);
      }
    }
  }

  lemma {:induction false} WritesUpTo(d: MsgDesc, s: seq<byte>, p: Progress, i: nat, j: nat)
    requires WellFormed(d) && Typed(d, p.m) && ParseFields(d, s, p).Some? && Tracking(d, p)
    requires i < |d.fields| && d.fields[i].htype.FixArray? && d.fields[i].tag in Tags(d, s, p)
    requires var q := ParseFields(d, s, p).value;
             Running(p, i) <= j < if q.fixedField == i then q.fixedSize else d.fields[i].arraySize
    ensures Writes(d, s, p, i, j)
    decreases |s|
  {
    var r := ParseRecord(d, s, p).value;
    RecordTracks(d, s, p, i);
    FirstTag(d, s, p, i);
    if !(Running(p, i) <= j < Running(r.0, i)) || Find(d.fields, Decode32(s).value.0 / 8) != i {
      if d.fields[i].tag in Tags(d, r.1, r.0) {
        WritesUpTo(d, r.1, r.0, i, j);
      } else {
        Untouched(d, r.1, r.0, i);
      }
    }
  }

  lemma {:induction false} StillTracking(d: MsgDesc, s: seq<byte>, p: Progress, i: nat)
    requires WellFormed(d) && Typed(d, p.m) && ParseFields(d, s, p).Some? && Tracking(d, p)
    requires i < |d.fields| && d.fields[i].htype.FixArray?
    ensures Tracking(d, ParseFields(d, s, p).value)
    decreases |s|
  {
    if s != [] {
      RecordTracks(d, s, p, i);
      StillTracking(d, ParseRecord(d, s, p).value.1, ParseRecord(d, s, p).value.0, i);
    }
  }

  /** A fixed-count array of an accepted message is written at every position or has no record at all. */
  lemma WholeOrNone(d: MsgDesc, s: seq<byte>, m: Msg, init: bool, i: nat, j: nat)
    requires WellFormed(d) && Typed(d, m) && ParseMsg(d, s, m, init).Some?
    requires i < |d.fields| && d.fields[i].htype.FixArray? && j < d.fields[i].arraySize
    ensures d.fields[i].tag in Tags(d, s, Start(d, m, init)) ==> Writes(d, s, Start(d, m, init), i, j)
  {
    var p := Start(d, m, init);
    if d.fields[i].tag in Tags(d, s, p) {
      StillTracking(d, s, p, i);
      WritesUpTo(d, s, p, i, j);
    }
  }
}
