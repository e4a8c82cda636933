/** The hash slot of a key, with hash tags; crc16 is any function. */
module KeySlot {
  import opened Slots

  type SlotNumber = n: nat | n < CLUSTER_SLOTS

  /** The first position from i on where c stands, or the length of the key. */
  function IndexFrom(key: string, c: char, i: nat): (r: nat)
    requires i <= |key|
    ensures i <= r <= |key| && (r < |key| ==> key[r] == c) && forall j :: i <= j < r ==> key[j] != c
    decreases |key| - i
  {
    if i == |key| || key[i] == c then i else IndexFrom(key, c, i + 1)
  }

  /** The part of the key that is hashed: what stands between the first brace and the next closing
      one, unless that is nothing. */
  function Hashed(key: string): string {
    var s := IndexFrom(key, '{', 0);
    if s == |key| then key
    else
      var e := IndexFrom(key, '}', s + 1);
      if e == |key| || e == s + 1 then key else key[s + 1..e]
  }

  function Slot(crc16: string -> nat, key: string): SlotNumber {
    crc16(Hashed(key)) % CLUSTER_SLOTS
  }

  method KeyHashSlot(crc16: string -> nat, key: string) returns (r: SlotNumber)
    ensures r == Slot(crc16, key)
  {
    var s := 0;
    while s < |key| && key[s] != '{'
      invariant 0 <= s <= |key| && IndexFrom(key, '{', 0) == IndexFrom(key, '{', s)
    {
      s := s + 1;
    }
    if s == |key| {
      return crc16(key) % CLUSTER_SLOTS;
    }
    var e := s + 1;
    while e < |key| && key[e] != '}'
      invariant s < e <= |key| && IndexFrom(key, '}', s + 1) == IndexFrom(key, '}', e)
    {
      e := e + 1;
    }
    if e == |key| || e == s + 1 {
      return crc16(key) % CLUSTER_SLOTS;
    }
    return crc16(key[s + 1..e]) % CLUSTER_SLOTS;
  }

  lemma {:induction false} IndexAt(key: string, c: char, i: nat, n: nat)
    requires i <= n < |key| && key[n] == c && forall j :: i <= j < n ==> key[j] != c
    ensures IndexFrom(key, c, i) == n
    decreases n - i
  {
    if i < n {
      IndexAt(key, c, i + 1, n);
    }
  }

  /** Keys with the same hash tag are in the same slot, that of the tag. */
  lemma TagDecides(crc16: string -> nat, before: string, tag: string, after: string)
    requires '{' !in before && '}' !in tag && tag != ""
    ensures Slot(crc16, before + "{" + tag + "}" + after) == crc16(tag) % CLUSTER_SLOTS
  {
    var key := before + "{" + tag + "}" + after;
    var s := |before|;
    var e := s + 1 + |tag|;
    assert forall j :: 0 <= j < s ==> key[j] == before[j];
    IndexAt(key, '{', 0, s);
    assert forall j :: s + 1 <= j < e ==> key[j] == tag[j - s - 1];
    IndexAt(key, '}', s + 1, e);
    assert key[s + 1..e] == tag;
  }

  /** Without a brace the whole key is hashed. */
  lemma NoBrace(crc16: string -> nat, key: string)
    requires '{' !in key
    ensures Slot(crc16, key) == crc16(key) % CLUSTER_SLOTS
  {}

  /** A brace that is never closed does not count either. */
  lemma Unclosed(crc16: string -> nat, before: string, after: string)
    requires '{' !in before && '}' !in after
    ensures Slot(crc16, before + "{" + after) == crc16(before + "{" + after) % CLUSTER_SLOTS
  {
    var key, s := before + "{" + after, |before|;
    assert forall j :: 0 <= j < s ==> key[j] == before[j];
    IndexAt(key, '{', 0, s);
    assert forall j :: s < j < |key| ==> key[j] == after[j - s - 1];
  }

  /** An empty tag does not count: the whole key is hashed. */
  lemma EmptyTag(crc16: string -> nat, before: string, after: string)
    requires '{' !in before
    ensures Slot(crc16, before + "{}" + after) == crc16(before + "{}" + after) % CLUSTER_SLOTS
  {
    var key := before + "{}" + after;
    var s := |before|;
    assert forall j :: 0 <= j < s ==> key[j] == before[j];
    IndexAt(key, '{', 0, s);
    IndexAt(key, '}', s + 1, s + 1);
  }
}
