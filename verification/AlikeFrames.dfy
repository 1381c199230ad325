/** What re-encoding merges: values that differ in the forms of their nulls, and no others. */
module AlikeFrames {
  import opened RespValue
  import opened Resp3

  /** The same value, whichever forms its nulls had. */
  predicate Alike(v: Value, w: Value)
    decreases v, 0
  {
    match v
    case Null(_) => w.Null?
    case Array(items) => w.Array? && AlikeItems(items, w.items)
    case Set(items) => w.Set? && AlikeItems(items, w.items)
    case Push(items) => w.Push? && AlikeItems(items, w.items)
    case Map(entries) => w.Map? && AlikeEntries(entries, w.entries)
    case Attribute(attrs, value) => w.Attribute? && AlikeEntries(attrs, w.attrs) && Alike(value, w.value)
    case _ => v == w
  }

  predicate AlikeItems(items: seq<Value>, others: seq<Value>)
    decreases items, 1
  {
    |items| == |others| && forall k :: 0 <= k < |items| ==> Alike(items[k], others[k])
  }

  predicate AlikeEntries(entries: seq<Entry>, others: seq<Entry>)
    decreases entries, 2
  {
    |entries| == |others| && forall k :: 0 <= k < |entries| ==> AlikeEntry(entries[k], others[k])
  }

  predicate AlikeEntry(e: Entry, f: Entry)
    decreases e, 1
  {
    Alike(e.key, f.key) && Alike(e.val, f.val)
  }

  /** Every null has the form of RESP3. */
  predicate NullsAreResp3(v: Value)
    decreases v, 0
  {
    match v
    case Null(form) => form == Resp3Form
    case Array(items) => forall k :: 0 <= k < |items| ==> NullsAreResp3(items[k])
    case Set(items) => forall k :: 0 <= k < |items| ==> NullsAreResp3(items[k])
    case Push(items) => forall k :: 0 <= k < |items| ==> NullsAreResp3(items[k])
    case Map(entries) => forall k :: 0 <= k < |entries| ==> EntryNulls(entries[k])
    case Attribute(attrs, value) => (forall k :: 0 <= k < |attrs| ==> EntryNulls(attrs[k])) && NullsAreResp3(value)
    case _ => true
  }

  predicate EntryNulls(e: Entry)
    decreases e, 1
  {
    NullsAreResp3(e.key) && NullsAreResp3(e.val)
  }

  lemma {:induction false} NormalItemsAt(items: seq<Value>, k: nat)
    requires k < |items|
    ensures NormalItems(items)[k] == Normal(items[k])
    decreases k
  {
    if k > 0 {
      NormalItemsAt(items[1..], k - 1);
    }
  }

  lemma {:induction false} NormalEntriesAt(entries: seq<Entry>, k: nat)
    requires k < |entries|
    ensures NormalEntries(entries)[k] == NormalEntry(entries[k])
    decreases k
  {
    if k > 0 {
      NormalEntriesAt(entries[1..], k - 1);
    }
  }

  /** Normalising changes the forms of nulls, to that of RESP3, and nothing else. */
  lemma {:induction false} NormalIsAlike(v: Value)
    ensures Alike(v, Normal(v)) && NullsAreResp3(Normal(v))
    decreases v, 0
  {
    hide AlikeItems, AlikeEntries, EntryNulls;
    match v
    case Array(items) => ItemsAreAlike(items);
    case Set(items) => ItemsAreAlike(items);
    case Push(items) => ItemsAreAlike(items);
    case Map(entries) => EntriesAreAlike(entries);
    case Attribute(attrs, value) => EntriesAreAlike(attrs); NormalIsAlike(value);
    case _ =>
  }

  lemma {:induction false} ItemsAreAlike(items: seq<Value>)
    ensures AlikeItems(items, NormalItems(items))
    ensures forall k :: 0 <= k < |items| ==> NullsAreResp3(NormalItems(items)[k])
    decreases items, 1
  {
    hide Alike, NullsAreResp3, Normal;
    forall k | 0 <= k < |items| ensures Alike(items[k], NormalItems(items)[k]) && NullsAreResp3(NormalItems(items)[k]) {
      NormalItemsAt(items, k);
      NormalIsAlike(items[k]);
    }
  }

  lemma {:induction false} EntriesAreAlike(entries: seq<Entry>)
    ensures AlikeEntries(entries, NormalEntries(entries))
    ensures forall k :: 0 <= k < |entries| ==> EntryNulls(NormalEntries(entries)[k])
    decreases entries, 2
  {
    hide Alike, NullsAreResp3, Normal;
    forall k | 0 <= k < |entries| ensures AlikeEntry(entries[k], NormalEntries(entries)[k]) && EntryNulls(NormalEntries(entries)[k]) {
      NormalEntriesAt(entries, k);
      EntryIsAlike(entries[k]);
    }
  }

  lemma {:induction false} EntryIsAlike(e: Entry)
    ensures AlikeEntry(e, NormalEntry(e)) && EntryNulls(NormalEntry(e))
    decreases e, 1
  {
    hide Alike, NullsAreResp3, Normal;
    NormalIsAlike(e.key);
    NormalIsAlike(e.val);
  }

  /** Alike values normalise to one. */
  lemma {:induction false} AlikeNormalise(v: Value, w: Value)
    requires Alike(v, w)
    ensures Normal(v) == Normal(w)
    decreases v, 0
  {
    hide AlikeItems, AlikeEntries;
    match v
    case Array(items) => ItemsNormalise(items, w.items);
    case Set(items) => ItemsNormalise(items, w.items);
    case Push(items) => ItemsNormalise(items, w.items);
    case Map(entries) => EntriesNormalise(entries, w.entries);
    case Attribute(attrs, value) => EntriesNormalise(attrs, w.attrs); AlikeNormalise(value, w.value);
    case _ =>
  }

  lemma {:induction false} ItemsNormalise(items: seq<Value>, others: seq<Value>)
    requires AlikeItems(items, others)
    ensures NormalItems(items) == NormalItems(others)
    decreases items, 1
  {
    hide Alike, Normal;
    forall k | 0 <= k < |items| ensures NormalItems(items)[k] == NormalItems(others)[k] {
      NormalItemsAt(items, k);
      NormalItemsAt(others, k);
      AlikeNormalise(items[k], others[k]);
    }
  }

  lemma {:induction false} EntriesNormalise(entries: seq<Entry>, others: seq<Entry>)
    requires AlikeEntries(entries, others)
    ensures NormalEntries(entries) == NormalEntries(others)
    decreases entries, 2
  {
    hide Alike, Normal;
    forall k | 0 <= k < |entries| ensures NormalEntries(entries)[k] == NormalEntries(others)[k] {
      NormalEntriesAt(entries, k);
      NormalEntriesAt(others, k);
      EntryNormalises(entries[k], others[k]);
    }
  }

  lemma {:induction false} EntryNormalises(e: Entry, f: Entry)
    requires AlikeEntry(e, f)
    ensures NormalEntry(e) == NormalEntry(f)
    decreases e, 1
  {
    hide Alike, Normal;
    AlikeNormalise(e.key, f.key);
    AlikeNormalise(e.val, f.val);
  }

  /** Values that normalise alike are alike. */
  lemma {:induction false} NormalisedAreAlike(v: Value, w: Value)
    requires Normal(v) == Normal(w)
    ensures Alike(v, w)
    decreases v, 0
  {
    hide AlikeItems, AlikeEntries, NormalItems, NormalEntries;
    match v
    case Array(items) => NormalisedItems(items, w.items);
    case Set(items) => NormalisedItems(items, w.items);
    case Push(items) => NormalisedItems(items, w.items);
    case Map(entries) => NormalisedEntries(entries, w.entries);
    case Attribute(attrs, value) => NormalisedEntries(attrs, w.attrs); NormalisedAreAlike(value, w.value);
    case _ =>
  }

  lemma {:induction false} NormalisedItems(items: seq<Value>, others: seq<Value>)
    requires NormalItems(items) == NormalItems(others)
    ensures AlikeItems(items, others)
    decreases items, 1
  {
    hide Alike, Normal;
    assert |NormalItems(items)| == |items| && |NormalItems(others)| == |others|;
    forall k | 0 <= k < |items| ensures Alike(items[k], others[k]) {
      NormalItemsAt(items, k);
      NormalItemsAt(others, k);
      NormalisedAreAlike(items[k], others[k]);
    }
  }

  lemma {:induction false} NormalisedEntries(entries: seq<Entry>, others: seq<Entry>)
    requires NormalEntries(entries) == NormalEntries(others)
    ensures AlikeEntries(entries, others)
    decreases entries, 2
  {
    hide Alike, Normal;
    assert |NormalEntries(entries)| == |entries| && |NormalEntries(others)| == |others|;
    forall k | 0 <= k < |entries| ensures AlikeEntry(entries[k], others[k]) {
      NormalEntriesAt(entries, k);
      NormalEntriesAt(others, k);
      NormalisedEntry(entries[k], others[k]);
    }
  }

  lemma {:induction false} NormalisedEntry(e: Entry, f: Entry)
    requires NormalEntry(e) == NormalEntry(f)
    ensures AlikeEntry(e, f)
    decreases e, 1
  {
    hide Alike, Normal;
    NormalisedAreAlike(e.key, f.key);
    NormalisedAreAlike(e.val, f.val);
  }

  /** Two frames are written with the same octets exactly when they are the same but for the forms of their nulls. */
  lemma {:induction false} SameBytesIffAlike(v: Value, w: Value)
    requires WireSafe(v) && WireSafe(w)
    ensures Encode(v) == Encode(w) <==> Alike(v, w)
  {
    hide Encode, Normal, WireSafe, Alike;
    SameBytesIffSameNormal(v, w);
    if Alike(v, w) {
      AlikeNormalise(v, w);
    }
    if Normal(v) == Normal(w) {
      NormalisedAreAlike(v, w);
    }
  }
}
