/** When the newline-joined identity key of a decision can be read as another decision's. */
module Identity {
  import opened Common
  import opened Attention
  import opened Decimals
  import opened Keys

  /** The four fields of a key, as text. */
  datatype Parts = Parts(run: string, batch: string, revision: string, cursor: string)

  function KeyOf(p: Parts): string {
    Join(p.run, Join(p.batch, Join(p.revision, p.cursor)))
  }

  predicate Written(p: Parts) {
    p.run != "" && p.batch != "" && IsDecimal(p.revision) && p.cursor != ""
  }

  // ---------- where the separators stand ----------

  function First(p: Parts): nat {
    |p.run|
  }

  function Second(p: Parts): nat {
    First(p) + 1 + |p.batch|
  }

  function Third(p: Parts): nat {
    Second(p) + 1 + |p.revision|
  }

  lemma KeySplits(p: Parts)
    ensures var key := KeyOf(p);
            && |key| == Third(p) + 1 + |p.cursor|
            && key[First(p)] == '\n' && key[Second(p)] == '\n' && key[Third(p)] == '\n'
            && key[..First(p)] == p.run && key[First(p) + 1..Second(p)] == p.batch
            && key[Second(p) + 1..Third(p)] == p.revision && key[Third(p) + 1..] == p.cursor
  {
    var key := KeyOf(p);
    assert key == p.run + SEPARATOR + p.batch + SEPARATOR + p.revision + SEPARATOR + p.cursor;
  }

  lemma SameSeparatorsSameParts(p: Parts, q: Parts)
    requires KeyOf(p) == KeyOf(q) && First(p) == First(q) && Second(p) == Second(q) && Third(p) == Third(q)
    ensures p == q
  {
    KeySplits(p);
    KeySplits(q);
  }

  /** No separator stands inside a revision. */
  lemma RevisionHasNoSeparator(p: Parts, at: nat)
    requires IsDecimal(p.revision) && Second(p) < at < Third(p)
    ensures at < |KeyOf(p)| && KeyOf(p)[at] != '\n'
  {
    KeySplits(p);
    var key := KeyOf(p);
    assert key[at] == key[Second(p) + 1..Third(p)][at - Second(p) - 1];
  }

  lemma InRun(p: Parts, at: nat)
    requires 0 < at < First(p) && KeyOf(p)[at] == '\n'
    ensures BreaksAfterStart(p.run)
  {
    KeySplits(p);
    assert p.run[at] == KeyOf(p)[..First(p)][at];
  }

  lemma InBatch(p: Parts, at: nat)
    requires First(p) < at && at + 1 < Second(p) && KeyOf(p)[at] == '\n'
    ensures BreaksBeforeEnd(p.batch)
  {
    KeySplits(p);
    assert p.batch[at - First(p) - 1] == KeyOf(p)[First(p) + 1..Second(p)][at - First(p) - 1];
  }

  // ---------- when a key has a second reading ----------

  predicate BreaksAfterStart(run: string) {
    exists i :: 0 < i < |run| && run[i] == '\n'
  }

  predicate BreaksBeforeEnd(batch: string) {
    exists i :: 0 <= i < |batch| - 1 && batch[i] == '\n'
  }

  /** A whole line of the cursor is canonical decimal, and something follows it. */
  predicate HoldsRevision(cursor: string) {
    exists i, j :: 0 <= i < j < |cursor| - 1 && IsRevisionLine(cursor, i, j)
  }

  predicate IsRevisionLine(cursor: string, i: nat, j: nat)
    requires i < j < |cursor|
  {
    (i == 0 || cursor[i - 1] == '\n') && cursor[j] == '\n' && IsDecimal(cursor[i..j])
  }

  predicate HasSecondReading(p: Parts) {
    BreaksAfterStart(p.run) || BreaksBeforeEnd(p.batch) || HoldsRevision(p.cursor)
  }

  /** A line of the key that can be read as a revision, with something behind it. */
  ghost predicate RevisionLine(key: string, from: nat, to: nat) {
    from + 1 < to < |key| - 1 && key[from] == '\n' && key[to] == '\n' && IsDecimal(key[from + 1..to])
  }

  lemma RevisionIsALine(p: Parts)
    requires Written(p)
    ensures RevisionLine(KeyOf(p), Second(p), Third(p))
  {
    KeySplits(p);
    assert p.revision != "";
  }

  lemma CursorIsTheRest(p: Parts)
    ensures Third(p) < |KeyOf(p)| && KeyOf(p)[Third(p)] == '\n' && KeyOf(p)[Third(p) + 1..] == p.cursor
  {
    KeySplits(p);
  }

  lemma LineBehind(key: string, base: nat, from: nat, to: nat)
    requires base <= from + 1 && RevisionLine(key, from, to)
    ensures HoldsRevision(key[base..])
  {
    var cursor := key[base..];
    var i, j: nat := from + 1 - base, to - base;
    assert cursor[i..j] == key[from + 1..to];
    assert i > 0 ==> cursor[i - 1] == key[from];
    assert IsRevisionLine(cursor, i, j);
  }

  /** The second reading's revision lies behind the first one's. */
  lemma LaterRevision(p: Parts, q: Parts)
    requires Written(p) && Written(q) && KeyOf(p) == KeyOf(q) && Third(p) < Third(q)
    ensures HoldsRevision(p.cursor)
  {
    hide KeyOf, HoldsRevision, RevisionLine;
    CursorIsTheRest(p);
    RevisionIsALine(q);
    if Second(q) < Third(p) {
      RevisionHasNoSeparator(q, Third(p));
    } else {
      LineBehind(KeyOf(p), Third(p) + 1, Second(q), Third(q));
    }
  }

  lemma EarlierRevision(p: Parts, q: Parts)
    requires Written(p) && Written(q) && KeyOf(p) == KeyOf(q) && Third(q) < Third(p)
    ensures BreaksAfterStart(p.run) || BreaksBeforeEnd(p.batch)
  {
    KeySplits(p);
    KeySplits(q);
    if Second(p) < Third(q) {
      RevisionHasNoSeparator(p, Third(q));
    } else if First(q) < First(p) {
      InRun(p, First(q));
    } else {
      InBatch(p, Second(q));
    }
  }

  lemma SameRevision(p: Parts, q: Parts)
    requires Written(p) && Written(q) && KeyOf(p) == KeyOf(q) && p != q && Third(p) == Third(q)
    ensures BreaksAfterStart(p.run) || BreaksBeforeEnd(p.batch)
  {
    KeySplits(p);
    KeySplits(q);
    if Second(q) < Second(p) {
      RevisionHasNoSeparator(q, Second(p));
    } else if Second(p) < Second(q) {
      RevisionHasNoSeparator(p, Second(q));
    } else if First(q) < First(p) {
      InRun(p, First(q));
    } else if First(p) < First(q) {
      InBatch(p, First(q));
    } else {
      SameSeparatorsSameParts(p, q);
    }
  }

  lemma SecondReading(p: Parts, q: Parts)
    requires Written(p) && Written(q) && KeyOf(p) == KeyOf(q) && p != q
    ensures HasSecondReading(p)
  {
    if Third(p) < Third(q) {
      LaterRevision(p, q);
    } else if Third(q) < Third(p) {
      EarlierRevision(p, q);
    } else {
      SameRevision(p, q);
    }
  }

  lemma JoinsAgree(a: string, b: string, c: string)
    ensures Join(Join(a, b), c) == Join(a, Join(b, c))
  {
  }

  lemma SplitAt(text: string, at: nat)
    requires at < |text| && text[at] == '\n'
    ensures text == Join(text[..at], text[at + 1..])
  {
  }

  lemma RereadRun(p: Parts, i: nat) returns (q: Parts)
    requires Written(p) && 0 < i < |p.run| && p.run[i] == '\n'
    ensures Written(q) && KeyOf(q) == KeyOf(p) && q.run != p.run
  {
    SplitAt(p.run, i);
    q := p.(run := p.run[..i], batch := Join(p.run[i + 1..], p.batch));
    var tail := Join(p.revision, p.cursor);
    JoinsAgree(p.run[i + 1..], p.batch, tail);
    JoinsAgree(p.run[..i], p.run[i + 1..], Join(p.batch, tail));
  }

  lemma RereadBatch(p: Parts, i: nat) returns (q: Parts)
    requires Written(p) && i + 1 < |p.batch| && p.batch[i] == '\n'
    ensures Written(q) && KeyOf(q) == KeyOf(p) && q.run != p.run
  {
    SplitAt(p.batch, i);
    q := p.(run := Join(p.run, p.batch[..i]), batch := p.batch[i + 1..]);
    var tail := Join(p.revision, p.cursor);
    JoinsAgree(p.batch[..i], q.batch, tail);
    JoinsAgree(p.run, p.batch[..i], Join(q.batch, tail));
    assert |q.run| > |p.run|;
  }

  /** A revision line of the cursor becomes the revision, and all before it run and batch. */
  lemma RereadCursor(p: Parts, i: nat, j: nat) returns (q: Parts)
    requires Written(p) && i < j < |p.cursor| - 1 && IsRevisionLine(p.cursor, i, j)
    ensures Written(q) && KeyOf(q) == KeyOf(p) && q.run != p.run
  {
    var line, rest := p.cursor[i..j], p.cursor[j + 1..];
    var run := Join(p.run, p.batch);
    assert |run| > |p.run|;
    SplitAt(p.cursor, j);
    JoinsAgree(p.run, p.batch, Join(p.revision, p.cursor));
    if i == 0 {
      assert p.cursor[..j] == line;
      q := Parts(run, p.revision, line, rest);
    } else {
      var before := p.cursor[..i - 1];
      SplitAt(p.cursor[..j], i - 1);
      assert p.cursor[..j][i - 1 + 1..] == line && p.cursor[..j][..i - 1] == before;
      JoinsAgree(before, line, rest);
      JoinsAgree(p.revision, before, Join(line, rest));
      q := Parts(run, Join(p.revision, before), line, rest);
    }
  }

  lemma AnotherRunReads(p: Parts) returns (q: Parts)
    requires Written(p) && HasSecondReading(p)
    ensures Written(q) && KeyOf(q) == KeyOf(p) && q.run != p.run
  {
    if i :| 0 < i < |p.run| && p.run[i] == '\n' {
      q := RereadRun(p, i);
    } else if i :| 0 <= i < |p.batch| - 1 && p.batch[i] == '\n' {
      q := RereadBatch(p, i);
    } else {
      var i, j :| 0 <= i < j < |p.cursor| - 1 && IsRevisionLine(p.cursor, i, j);
      q := RereadCursor(p, i, j);
    }
  }

  // ---------- decisions ----------

  function PartsOf(b: Bound): Parts
    requires Named(b)
  {
    Parts(b.runId.value, b.batchId.value, Decimal(b.revision.value), b.eventCursor.value)
  }

  predicate SameDecision(a: Bound, b: Bound) {
    a.runId == b.runId && a.batchId == b.batchId && a.revision == b.revision && a.eventCursor == b.eventCursor
  }

  /** The key of the decision can be read as another's; a caller can check it on the decision alone. */
  predicate Ambiguous(b: Bound)
    requires Named(b)
  {
    HasSecondReading(PartsOf(b))
  }

  lemma PartsAreWritten(b: Bound)
    requires Named(b)
    ensures Written(PartsOf(b)) && IdentityKey(Some(b)) == Some(KeyOf(PartsOf(b)))
  {
    DecimalsAreCanonical(Decimal(b.revision.value));
  }

  lemma SamePartsSameDecision(a: Bound, b: Bound)
    requires Named(a) && Named(b)
    ensures PartsOf(a) == PartsOf(b) <==> SameDecision(a, b)
  {
    if PartsOf(a) == PartsOf(b) {
      DecimalTellsApart(a.revision.value, b.revision.value);
    }
  }

  /** A decision whose key has no second reading shares it with no other decision. */
  lemma IdentityTellsApart(a: Bound, b: Bound)
    requires Named(a) && Named(b) && !Ambiguous(b)
    ensures IdentityKey(Some(a)) == IdentityKey(Some(b)) <==> SameDecision(a, b)
  {
    PartsAreWritten(a);
    PartsAreWritten(b);
    SamePartsSameDecision(a, b);
    if IdentityKey(Some(a)) == IdentityKey(Some(b)) && PartsOf(a) != PartsOf(b) {
      SecondReading(PartsOf(b), PartsOf(a));
    }
  }

  ghost predicate SharesKey(a: Bound, b: Bound) {
    Named(a) && IdentityKey(Some(a)) == IdentityKey(Some(b)) && !SameDecision(a, b)
  }

  /** A decision of another run that reads the same key. */
  lemma Twin(b: Bound) returns (a: Bound)
    requires Named(b) && Ambiguous(b)
    ensures SharesKey(a, b) && a.runId != b.runId
  {
    PartsAreWritten(b);
    var q := AnotherRunReads(PartsOf(b));
    DecimalsAreCanonical(q.revision);
    var n: int :| Decimal(n) == q.revision;
    a := b.(runId := Some(q.run), batchId := Some(q.batch), revision := Some(n), eventCursor := Some(q.cursor));
    PartsAreWritten(a);
    assert PartsOf(a) == q;
  }

  /** The key is shared by another decision, even by one of another run, exactly when it is ambiguous. */
  lemma KeyIsSharedExactly(b: Bound)
    requires Named(b)
    ensures Ambiguous(b) <==> exists a :: SharesKey(a, b)
    ensures Ambiguous(b) <==> exists a :: SharesKey(a, b) && a.runId != b.runId
  {
    if Ambiguous(b) {
      var a := Twin(b);
    } else {
      forall a | Named(a) ensures !SharesKey(a, b) {
        IdentityTellsApart(a, b);
      }
    }
  }
}
