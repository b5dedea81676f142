/** The BLE protocol engine itself (protocol.c): three tables changed in place. */
module Protocol {
  import opened Bytes
  import opened ProtocolKeys
  import opened Frame
  import opened Reassembly
  import opened ReassemblyRuns
  import opened Wrappers
  import Decimal

  /** The merge loop of egp_protocol_accept: it stops at the first contradicted byte. */
  method MergeBytes(t: Incomplete, offset: nat, payload: seq<byte>) returns (conflict: bool, next: Incomplete)
    requires InBuffer(t, offset, payload) && t.count == Marks(t.received)
    ensures conflict <==> !Fits(t, offset, payload)
    ensures !conflict ==> next == Absorbed(t, offset, payload)
  {
    hide Marks, Absorbed, Fits;
    conflict, next := false, t;
    NothingAbsorbed(t, offset);
    var i: nat := 0;
    while i < |payload| && !conflict
      invariant i <= |payload|
      invariant !conflict ==> Fits(t, offset, payload[..i]) && next == Absorbed(t, offset, payload[..i])
      invariant conflict ==> !Fits(t, offset, payload)
      decreases |payload| - i, !conflict
    {
      AbsorbByte(t, offset, payload, i);
      FitsByte(t, offset, payload, i);
      var position := offset + i;
      if next.received[position] {
        if next.data[position] != payload[i] {
          conflict := true;
        } else {
          i := i + 1;
        }
      } else {
        next := next.(received := next.received[position := true], data := next.data[position := payload[i]],
                      count := next.count + 1);
        i := i + 1;
      }
    }
    assert payload[..|payload|] == payload;
  }

  lemma NothingAbsorbed(t: Incomplete, offset: nat)
    requires InBuffer(t, offset, []) && t.count == Marks(t.received)
    ensures Fits(t, offset, []) && Absorbed(t, offset, []) == t
  {
    assert t.received[..offset] + seq(0, _ => true) + t.received[offset..] == t.received;
    assert t.data[..offset] + [] + t.data[offset..] == t.data;
  }

  class Protocol {
    var incomplete: map<Slot, Incomplete>
    var completed: map<Tag, Completed>
    var expired: map<Tag, int>

    function Tables(): Tables
      reads this
    {
      Reassembly.Tables(incomplete, completed, expired)
    }

    ghost predicate Valid()
      reads this
    {
      TablesOk(Tables())
    }

    constructor ()
      ensures Tables() == EMPTY && Valid()
    {
      incomplete, completed, expired := map[], map[], map[];
    }

    /** remember_timeout: hash order decides which marker gives way. */
    method RememberTimeout(tag: Tag, now: int)
      requires |expired| <= CACHE_LIMIT
      modifies this`expired
      ensures Remembered(old(expired), expired, tag, now)
      ensures |expired| <= |old(expired)| + 1
    {
      while |expired| >= CACHE_LIMIT
        invariant |expired| <= |old(expired)| <= CACHE_LIMIT
        invariant Within(expired, old(expired))
        invariant |old(expired)| < CACHE_LIMIT ==> expired == old(expired)
        decreases |expired|
      {
        var key :| key in expired;
        MapMinusSize(expired, key);
        expired := expired - {key};
      }
      MapPlusSize(expired, tag, now + LIFETIME);
      expired := expired[tag := now + LIFETIME];
    }

    /** egp_protocol_expire */
    method Expire(now: int)
      requires Valid()
      modifies this
      ensures Valid()
      ensures if now <= 0 then Tables() == old(Tables()) else Swept(old(Tables()), Tables(), now)
    {
      if now <= 0 {
        return;
      }
      ExpireIncomplete(now);
      completed := map t | t in completed && now < completed[t].expires :: completed[t];
      ghost var before := expired;
      expired := Unelapsed(expired, now);
      SubmapSize(expired, before);
      SweptOk(old(Tables()), Tables(), now);
    }

    /** Its first loop: every stale transaction becomes a timeout marker. */
    method ExpireIncomplete(now: int)
      requires |expired| <= CACHE_LIMIT
      modifies this`incomplete, this`expired
      ensures incomplete == Alive(old(incomplete), now)
      ensures |expired| <= CACHE_LIMIT
      ensures Within(expired, Marked(old(expired), old(incomplete), old(incomplete).Keys, now))
      ensures |old(expired)| + |StaleAmong(old(incomplete), old(incomplete).Keys, now)| <= CACHE_LIMIT ==>
                expired == Marked(old(expired), old(incomplete), old(incomplete).Keys, now)
    {
      hide Marked, StaleAmong, Alive, Remaining, Stale;
      ghost var all, marks, seen := incomplete, expired, {};
      var todo := incomplete.Keys;
      NothingMarked(marks, all, now);
      RemainingAll(all, now);
      while todo != {}
        invariant todo <= all.Keys && seen == all.Keys - todo
        invariant incomplete == Remaining(all, todo, now)
        invariant |expired| <= CACHE_LIMIT && |expired| <= |marks| + |StaleAmong(all, seen, now)|
        invariant Within(expired, Marked(marks, all, seen, now))
        invariant |marks| + |StaleAmong(all, seen, now)| <= CACHE_LIMIT ==> expired == Marked(marks, all, seen, now)
        decreases |todo|
      {
        var slot :| slot in todo;
        ghost var left := todo;
        todo := todo - {slot};
        assert todo + {slot} == left;
        MarkOne(marks, all, seen, slot, now);
        RemainingOne(all, todo, slot, now);
        if Stale(incomplete[slot], now) {
          ghost var before := expired;
          RememberTimeout(Tag(slot, incomplete[slot].id), now);
          WithinMore(before, Marked(marks, all, seen, now), expired, Tag(slot, all[slot].id), now + LIFETIME);
          incomplete := incomplete - {slot};
        }
        seen := seen + {slot};
        assert seen == all.Keys - todo;
      }
      assert seen == all.Keys;
      RemainingNone(all, now);
    }

    /** egp_protocol_drop_peer: the timeout markers of a peer are found by the text of their keys (KeyNamesItsPeer). */
    method DropPeer(peer: string)
      requires Valid()
      modifies this
      ensures Valid() && Tables() == WithoutPeer(old(Tables()), peer)
    {
      incomplete := map s | s in incomplete && s.peer != peer :: incomplete[s];
      expired := map t | t in expired && t.slot.peer != peer :: expired[t];
      StepOk(ReassemblyRuns.DropPeer(peer), old(Tables()), Tables());
    }

    /** egp_protocol_drop_all */
    method DropAll()
      modifies this
      ensures Valid() && Tables() == EMPTY
    {
      incomplete, completed, expired := map[], map[], map[];
    }

    /**
     The inner loop of prune_completed_limit: an entry completed first, in some hash order. No entry
     was completed at the int64 ceiling, so the search cannot come back empty.
     */
    method Oldest() returns (key: Tag)
      requires completed != map[] && forall t <- completed :: completed[t].completedAt <= CLOCK_MAX
      ensures key in completed && forall t <- completed :: completed[key].completedAt <= completed[t].completedAt
    {
      var oldest, least := None, Decimal.INT64_MAX;
      var todo := completed.Keys;
      assert todo != {};
      while todo != {}
        invariant todo <= completed.Keys
        invariant oldest.Some? ==> oldest.value in completed && completed[oldest.value].completedAt == least
        invariant oldest.None? ==> todo == completed.Keys && least == Decimal.INT64_MAX
        invariant forall t <- completed :: t !in todo ==> completed[t].completedAt >= least
        decreases |todo|
      {
        var t :| t in todo;
        todo := todo - {t};
        if completed[t].completedAt < least {
          least, oldest := completed[t].completedAt, Some(t);
        }
      }
      key := oldest.value;
    }

    /** prune_completed_limit */
    method Prune()
      requires Valid()
      modifies this`completed
      ensures Pruned(old(completed), completed)
    {
      while |completed| >= CACHE_LIMIT
        invariant |completed| <= CACHE_LIMIT && Within(completed, old(completed))
        invariant |completed| == CACHE_LIMIT ==> completed == old(completed)
        invariant |completed| < CACHE_LIMIT ==> Pruned(old(completed), completed)
        decreases |completed|
      {
        var oldest := Oldest();
        MapMinusSize(completed, oldest);
        completed := completed - {oldest};
      }
    }

    /** complete_transaction: text check, replay check, and a place in the cache for a new one. */
    method CompleteTransaction(slot: Slot, t: Incomplete, now: int) returns (reply: Reply)
      requires Valid() && t.total <= |t.data| == MAX_JSON
      modifies this`incomplete, this`completed
      ensures reply == Finish(old(completed), slot, t)
      ensures incomplete == old(incomplete) - {slot}
      ensures reply.Complete? ==> |reply.request.json| <= MAX_JSON && Inserted(old(completed), completed, reply.request, now)
      ensures !reply.Complete? ==> completed == old(completed)
    {
      hide TextOk, DigestOf, Pruned;
      var request := Request(slot, t.id, t.opcode, t.data[..t.total]);
      if !TextOk(request.json) {
        incomplete := incomplete - {slot};
        return Refused(PayloadInvalid);
      }
      var digest, key := DigestOf(request), Tag(slot, t.id);
      if key in completed && completed[key].digest != digest {
        incomplete := incomplete - {slot};
        return Refused(ReplayRejected);
      }
      if key in completed {
        reply := Replay(request, completed[key].result);
      } else {
        reply := Complete(request);
        Prune();
        ghost var kept := completed;
        PrunedLacks(old(completed), kept, key);
        completed := completed[key := Completed(digest, [], now + REPLAY_TTL, now)];
        assert completed - {key} == kept;
      }
      incomplete := incomplete - {slot};
    }

    /** The frame has found or started its transaction: merge, then conflict, gap, wait or complete. */
    method Continue(slot: Slot, t: Incomplete, f: Frame, now: int) returns (reply: Reply)
      requires Valid() && TransactionOk(t) && Legal(slot.characteristic, f) && f.total == t.total
      modifies this`incomplete, this`completed
      ensures var d := Merge(old(completed), slot, t, f, now);
        && reply == d.reply
        && incomplete == (if d.slot.Some? then old(incomplete)[slot := d.slot.value] else old(incomplete) - {slot})
      ensures reply.Complete? ==> |reply.request.json| <= MAX_JSON && Inserted(old(completed), completed, reply.request, now)
      ensures !reply.Complete? ==> completed == old(completed)
    {
      hide Fits, Absorbed, Finish, Marks, Inserted, Nonzero;
      var conflict, merged := MergeBytes(t, f.offset, f.payload);
      if conflict {
        incomplete := incomplete - {slot};
        return Refused(FragmentConflict);
      }
      AbsorbedOk(t, f.offset, f.payload);
      var next := merged.(touched := now, endSeen := t.endSeen || f.end);
      if next.endSeen && next.count != next.total {
        incomplete := incomplete - {slot};
        return Refused(FragmentConflict);
      }
      if !next.endSeen {
        incomplete := incomplete[slot := next];
        return Pending;
      }
      reply := CompleteTransaction(slot, next, now);
    }

    /** egp_protocol_accept after its sweep. */
    method Admit(slot: Slot, f: Frame, now: int) returns (reply: Reply)
      requires Valid() && Legal(slot.characteristic, f)
      modifies this`incomplete, this`completed
      ensures Settled(old(Tables()), Tables(), slot, f, now, reply)
    {
      hide Merge, Legal, Inserted, Fresh;
      if Tag(slot, f.id) in expired {
        Unmoved(Tables(), slot);
        return Refused(TransactionTimeout);
      }
      if slot !in incomplete {
        if !f.start {
          return Refused(FragmentConflict);
        }
        if |incomplete| >= MAX_INCOMPLETE {
          return Refused(Busy);
        }
        FreshFits(slot, f, now);
        reply := Continue(slot, Fresh(f, now), f, now);
      } else {
        var t := incomplete[slot];
        if t.id != f.id || t.opcode != f.opcode || t.total != f.total {
          Unmoved(Tables(), slot);
          return Refused(Busy);
        }
        reply := Continue(slot, t, f, now);
      }
    }

    /** egp_protocol_accept. `swept` names the tables between the sweep and the rest. */
    method Accept(slot: Slot, value: seq<byte>, now: int) returns (reply: Reply, ghost swept: Reassembly.Tables)
      requires Valid() && now <= CLOCK_MAX
      modifies this
      ensures Valid() && Accepts(old(Tables()), swept, Tables(), slot, value, now, reply)
    {
      hide Settled, Legal, TablesOk, Swept, Remembered, ObjectPath;
      swept := Tables();
      if !InputOk(slot.peer, now) {
        return Refused(PayloadInvalid), swept;
      }
      var parsed := Parse(slot.characteristic, value);
      if parsed.Bad? {
        return Refused(parsed.code), swept;
      }
      var f := parsed.frame;
      EncodeOfParse(slot.characteristic, value);
      hide Parse;
      SizesOf(Tables());
      if slot in incomplete && Stale(incomplete[slot], now) {
        var sameId := incomplete[slot].id == f.id;
        RememberTimeout(Tag(slot, incomplete[slot].id), now);
        incomplete := incomplete - {slot};
        if sameId {
          OwnTimeoutOk(old(Tables()), Tables(), slot, f, now);
          return Refused(TransactionTimeout), swept;
        }
        OwnRemovedOk(old(Tables()), Tables(), slot, now);
      }
      ghost var mid := Tables();
      Expire(now);
      swept := Tables();
      if mid != old(Tables()) {
        OwnThenSwept(old(Tables()), mid, swept, slot, now);
      }
      reply := Admit(slot, f, now);
      SettledOk(swept, Tables(), slot, f, now, reply);
    }

    /** egp_protocol_cache_result_id */
    method CacheResult(tag: Tag, result: seq<byte>, now: int) returns (ok: bool, ghost swept: Reassembly.Tables)
      requires Valid()
      modifies this
      ensures Valid() && Cached(old(Tables()), swept, Tables(), tag, result, now, ok)
    {
      hide TextOk, Swept, TablesOk;
      swept := Tables();
      if !ResultOk(result, now) {
        return false, swept;
      }
      Expire(now);
      swept := Tables();
      ok := tag in completed;
      if ok {
        completed := completed[tag := completed[tag].(result := result, expires := now + REPLAY_TTL)];
      }
      StepOk(Publish(tag, result, now, ok, swept), old(Tables()), Tables());
    }
  }

  lemma FreshFits(slot: Slot, f: Frame, now: int)
    requires Legal(slot.characteristic, f)
    ensures TransactionOk(Fresh(f, now)) && Fresh(f, now).total == f.total
  {
    FreshOk(f, now);
  }

  lemma SizesOf(t: Tables)
    requires TablesOk(t)
    ensures |t.expired| <= CACHE_LIMIT
  {
  }

  lemma Unmoved(t: Tables, slot: Slot)
    ensures slot in t.incomplete ==> t.incomplete[slot := t.incomplete[slot]] == t.incomplete
    ensures slot !in t.incomplete ==> t.incomplete - {slot} == t.incomplete
  {
  }

  lemma PrunedLacks(before: map<Tag, Completed>, after: map<Tag, Completed>, key: Tag)
    requires Pruned(before, after) && key !in before
    ensures key !in after
  {
  }

  lemma OwnRemovedOk(pre: Tables, mid: Tables, slot: Slot, now: int)
    requires TablesOk(pre) && slot in pre.incomplete
    requires mid.incomplete == pre.incomplete - {slot} && mid.completed == pre.completed
    requires Remembered(pre.expired, mid.expired, Tag(slot, pre.incomplete[slot].id), now)
    ensures TablesOk(mid)
  {
    hide TransactionOk;
    SubmapSize(mid.incomplete, pre.incomplete);
  }

  /** Timing out the frame's own stale transaction first makes no difference to the sweep. */
  lemma OwnThenSwept(pre: Tables, mid: Tables, post: Tables, slot: Slot, now: int)
    requires slot in pre.incomplete && Stale(pre.incomplete[slot], now) && |pre.expired| <= CACHE_LIMIT
    requires mid.incomplete == pre.incomplete - {slot} && mid.completed == pre.completed
    requires Remembered(pre.expired, mid.expired, Tag(slot, pre.incomplete[slot].id), now)
    requires Swept(mid, post, now)
    ensures Swept(pre, post, now)
  {
    hide Stale, StaleAmong, Alive, Marked, Unelapsed;
    var own := Tag(slot, pre.incomplete[slot].id);
    var all, rest := StaleAmong(pre.incomplete, pre.incomplete.Keys, now), StaleAmong(mid.incomplete, mid.incomplete.Keys, now);
    OwnAmongStale(pre.incomplete, mid.incomplete, slot, now);
    var whole, part := Marked(pre.expired, pre.incomplete, pre.incomplete.Keys, now), Marked(mid.expired, mid.incomplete, mid.incomplete.Keys, now);
    MarkedOwnFirst(pre, mid, slot, own, now);
    UnelapsedWithin(part, whole, now);
    if |pre.expired| + |all| <= CACHE_LIMIT {
      MapPlusSize(pre.expired, own, now + LIFETIME);
      assert mid.expired == pre.expired[own := now + LIFETIME];
      assert |mid.expired| + |rest| <= CACHE_LIMIT;
    }
  }

  lemma OwnAmongStale(pre: map<Slot, Incomplete>, mid: map<Slot, Incomplete>, slot: Slot, now: int)
    requires slot in pre && Stale(pre[slot], now) && mid == pre - {slot}
    ensures |StaleAmong(pre, pre.Keys, now)| == |StaleAmong(mid, mid.Keys, now)| + 1
    ensures Alive(pre, now) == Alive(mid, now)
  {
    hide Stale;
    assert StaleAmong(pre, pre.Keys, now) == StaleAmong(mid, mid.Keys, now) + {slot};
  }

  lemma UnelapsedWithin(part: map<Tag, int>, whole: map<Tag, int>, now: int)
    requires Within(part, whole)
    ensures Within(Unelapsed(part, now), Unelapsed(whole, now))
  {
  }

  lemma MarkedOwnFirst(pre: Tables, mid: Tables, slot: Slot, own: Tag, now: int)
    requires slot in pre.incomplete && Stale(pre.incomplete[slot], now) && own == Tag(slot, pre.incomplete[slot].id)
    requires mid.incomplete == pre.incomplete - {slot}
    requires Within(mid.expired, pre.expired[own := now + LIFETIME])
    ensures var whole, part := Marked(pre.expired, pre.incomplete, pre.incomplete.Keys, now), Marked(mid.expired, mid.incomplete, mid.incomplete.Keys, now);
      && Within(part, whole)
      && (mid.expired == pre.expired[own := now + LIFETIME] ==> part == whole)
  {
    hide Stale, StaleAmong, Markers;
    var others := pre.incomplete.Keys - {slot};
    assert others + {slot} == pre.incomplete.Keys;
    MarkersMore(pre.incomplete, others, slot, now);
    MarkersElsewhere(pre.incomplete, mid.incomplete, slot, now);
    OverrideEither(pre.expired, mid.expired, Markers(mid.incomplete, mid.incomplete.Keys, now), own, now + LIFETIME);
  }

  lemma OverrideEither<K, V>(whole: map<K, V>, part: map<K, V>, more: map<K, V>, k: K, v: V)
    requires Within(part, whole[k := v]) && (k in more ==> more[k] == v)
    ensures Within(part + more, whole + more[k := v])
    ensures part == whole[k := v] ==> part + more == whole + more[k := v]
  {
  }

  lemma MarkersElsewhere(pre: map<Slot, Incomplete>, mid: map<Slot, Incomplete>, slot: Slot, now: int)
    requires slot in pre && mid == pre - {slot}
    ensures Markers(mid, mid.Keys, now) == Markers(pre, pre.Keys - {slot}, now)
    ensures forall t <- Markers(mid, mid.Keys, now) :: Markers(mid, mid.Keys, now)[t] == now + LIFETIME
  {
    hide Stale;
    assert StaleAmong(mid, mid.Keys, now) == StaleAmong(pre, pre.Keys - {slot}, now);
  }

  lemma MapMinusSize<K, V>(m: map<K, V>, k: K)
    requires k in m
    ensures |m - {k}| == |m| - 1
  {
    assert (m - {k}).Keys == m.Keys - {k};
  }

  /** The table while its sweep still has `todo` to look at. */
  ghost function Remaining(all: map<Slot, Incomplete>, todo: set<Slot>, now: int): map<Slot, Incomplete> {
    map s | s in all && (s in todo || !Stale(all[s], now)) :: all[s]
  }

  lemma RemainingAll(all: map<Slot, Incomplete>, now: int)
    ensures Remaining(all, all.Keys, now) == all
  {
  }

  lemma RemainingNone(all: map<Slot, Incomplete>, now: int)
    ensures Remaining(all, {}, now) == Alive(all, now)
  {
  }

  lemma RemainingOne(all: map<Slot, Incomplete>, todo: set<Slot>, slot: Slot, now: int)
    requires slot in all && slot !in todo
    ensures var before := Remaining(all, todo + {slot}, now);
      && slot in before && before[slot] == all[slot]
      && Remaining(all, todo, now) == if Stale(all[slot], now) then before - {slot} else before
  {
  }

  lemma WithinMore<K, V>(part: map<K, V>, whole: map<K, V>, after: map<K, V>, k: K, v: V)
    requires Within(part, whole) && Within(after, part[k := v])
    ensures Within(after, whole[k := v])
  {
  }

  lemma NothingMarked(expired: map<Tag, int>, all: map<Slot, Incomplete>, now: int)
    ensures StaleAmong(all, {}, now) == {} && Marked(expired, all, {}, now) == expired
  {
  }

  lemma MarkersMore(all: map<Slot, Incomplete>, seen: set<Slot>, slot: Slot, now: int)
    requires slot in all && slot !in seen
    ensures Stale(all[slot], now) ==>
              && |StaleAmong(all, seen + {slot}, now)| == |StaleAmong(all, seen, now)| + 1
              && Markers(all, seen + {slot}, now) == Markers(all, seen, now)[Tag(slot, all[slot].id) := now + LIFETIME]
    ensures !Stale(all[slot], now) ==>
              && StaleAmong(all, seen + {slot}, now) == StaleAmong(all, seen, now)
              && Markers(all, seen + {slot}, now) == Markers(all, seen, now)
  {
    hide Stale;
    if Stale(all[slot], now) {
      assert StaleAmong(all, seen + {slot}, now) == StaleAmong(all, seen, now) + {slot};
    } else {
      assert StaleAmong(all, seen + {slot}, now) == StaleAmong(all, seen, now);
    }
  }

  /** The next slot of the loop: one more marker if it is stale, none otherwise. */
  lemma MarkOne(expired: map<Tag, int>, all: map<Slot, Incomplete>, seen: set<Slot>, slot: Slot, now: int)
    requires slot in all && slot !in seen
    ensures Stale(all[slot], now) ==>
              && |StaleAmong(all, seen + {slot}, now)| == |StaleAmong(all, seen, now)| + 1
              && Marked(expired, all, seen + {slot}, now) == Marked(expired, all, seen, now)[Tag(slot, all[slot].id) := now + LIFETIME]
    ensures !Stale(all[slot], now) ==>
              && StaleAmong(all, seen + {slot}, now) == StaleAmong(all, seen, now)
              && Marked(expired, all, seen + {slot}, now) == Marked(expired, all, seen, now)
  {
    hide Stale, StaleAmong, Markers;
    MarkersMore(all, seen, slot, now);
  }
}
