/**
 * Message identifiers on the HA link and the promise that tracks which
 * messages of a batch are still waiting for delivery confirmation.
 */
module Messaging {
  import opened Wrappers
  import Numerals
  import Strings

  /** One message on one HA link: the link's context handle and the message tag. */
  datatype MessageId = MessageId(halinkCtx: nat, tag: nat)

  /**
   * MessageId.__repr__: the context in hex, the tag in decimal. The two
   * numbers read back from the text between 'MessageId(0x' and ')', split
   * at the first ','.
   */
  function MessageIdRepr(m: MessageId): (r: string)
    ensures |r| > 13 && r[..12] == "MessageId(0x" && r[|r| - 1] == ')'
    ensures var parts := Strings.SplitOnce(r[12..|r| - 1], ',');
      && |parts| == 2 && |parts[1]| > 0 && parts[1][0] == ' '
      && parts[0] == Numerals.Format(m.halinkCtx, 16) && parts[1] == " " + Numerals.Format(m.tag, 10)
      && Numerals.Value(parts[0], 16) == Some(m.halinkCtx)
      && Numerals.Value(parts[1][1..], 10) == Some(m.tag)
  {
    var h, d := Numerals.Format(m.halinkCtx, 16), Numerals.Format(m.tag, 10);
    Numerals.FormatExcludes(m.halinkCtx, 16, ',');
    Numerals.ValueOfFormat(m.halinkCtx, 16);
    Numerals.ValueOfFormat(m.tag, 10);
    ReprFields(h, d);
    "MessageId(0x" + h + ", " + d + ")"
  }

  /** Between the fixed prefix and the ')', the text splits at its first ',' into the two fields. */
  lemma ReprFields(h: string, d: string)
    requires ',' !in h
    ensures var r := "MessageId(0x" + h + ", " + d + ")";
      && |r| > 13 && r[..12] == "MessageId(0x" && r[|r| - 1] == ')'
      && Strings.SplitOnce(r[12..|r| - 1], ',') == [h, " " + d]
  {
    var r := "MessageId(0x" + h + ", " + d + ")";
    assert r[12..|r| - 1] == h + [','] + (" " + d);
    Strings.SplitOnceOfJoined(h, " " + d, ',');
  }

  /** Two message ids print alike only when they are the same id. */
  lemma MessageIdReprInjective(a: MessageId, b: MessageId)
    requires MessageIdRepr(a) == MessageIdRepr(b)
    ensures a == b
  {
  }

  /** The distinct ids of a list, as set(ids) collects them. */
  function Elems(ids: seq<MessageId>): set<MessageId>
  {
    set m | m in ids
  }

  /**
   * What is left of `outstanding` after discarding the ids one at a time,
   * in list order, as the loop of exclude_ids does.
   */
  function Discarded(outstanding: set<MessageId>, ids: seq<MessageId>): (r: set<MessageId>)
    ensures r == outstanding - Elems(ids)
  {
    if |ids| == 0 then outstanding
    else
      var front := ids[..|ids| - 1];
      assert Elems(ids) == Elems(front) + {ids[|ids| - 1]};
      Discarded(outstanding, front) - {ids[|ids| - 1]}
  }

  /** A promise never gains ids: discarding only shrinks the outstanding set. */
  lemma DiscardedShrinks(outstanding: set<MessageId>, ids: seq<MessageId>)
    ensures Discarded(outstanding, ids) <= outstanding
    ensures forall m :: m in outstanding && m !in ids ==> m in Discarded(outstanding, ids)
  {
  }

  /** Two calls with lists a and b act as one call with a + b. */
  lemma DiscardedGrouping(outstanding: set<MessageId>, a: seq<MessageId>, b: seq<MessageId>)
    ensures Discarded(Discarded(outstanding, a), b) == Discarded(outstanding, a + b)
  {
    assert Elems(a + b) == Elems(a) + Elems(b);
  }

  /** The order of two calls does not matter. */
  lemma DiscardedCommutes(outstanding: set<MessageId>, a: seq<MessageId>, b: seq<MessageId>)
    ensures Discarded(Discarded(outstanding, a), b) == Discarded(Discarded(outstanding, b), a)
  {
  }

  /** Repeating a call changes nothing: late or repeated confirmations are harmless. */
  lemma DiscardedIdempotent(outstanding: set<MessageId>, a: seq<MessageId>)
    ensures Discarded(Discarded(outstanding, a), a) == Discarded(outstanding, a)
  {
  }

  /** The ids of a sequence of exclude_ids calls. */
  function AllIds(batches: seq<seq<MessageId>>): set<MessageId>
  {
    if |batches| == 0 then {} else AllIds(batches[..|batches| - 1]) + Elems(batches[|batches| - 1])
  }

  /** The outstanding set after a sequence of exclude_ids calls. */
  function DiscardedBatches(outstanding: set<MessageId>, batches: seq<seq<MessageId>>): set<MessageId>
  {
    if |batches| == 0 then outstanding
    else Discarded(DiscardedBatches(outstanding, batches[..|batches| - 1]), batches[|batches| - 1])
  }

  /**
   * However the confirmations are grouped into calls, the promise ends
   * empty exactly when the confirmed ids cover the whole batch.
   */
  lemma {:induction false} DiscardedBatchesComplete(outstanding: set<MessageId>, batches: seq<seq<MessageId>>)
    ensures DiscardedBatches(outstanding, batches) == outstanding - AllIds(batches)
    ensures DiscardedBatches(outstanding, batches) == {} <==> outstanding <= AllIds(batches)
  {
    if |batches| > 0 {
      var front := batches[..|batches| - 1];
      DiscardedBatchesComplete(outstanding, front);
    }
    var left := outstanding - AllIds(batches);
    if left == {} {
      forall m | m in outstanding ensures m in AllIds(batches) {
        assert m !in left;
      }
    }
  }

  /** HaLinkMessagePromise: the ids of a sent batch whose delivery is not yet confirmed. */
  class HaLinkMessagePromise {
    var ids: set<MessageId>

    /** Starts with the distinct ids of the batch. */
    constructor (messageIds: seq<MessageId>)
      ensures ids == Elems(messageIds)
      ensures forall m :: m in ids <==> m in messageIds
    {
      ids := set m | m in messageIds;
    }

    /** exclude_ids: discards each listed id in turn; ids not outstanding are ignored. */
    method ExcludeIds(excluded: seq<MessageId>)
      modifies this
      ensures ids == Discarded(old(ids), excluded)
      ensures ids == old(ids) - Elems(excluded)
    {
      for i := 0 to |excluded|
        invariant ids == Discarded(old(ids), excluded[..i])
      {
        assert excluded[..i + 1][..i] == excluded[..i];
        ids := ids - {excluded[i]};
      }
      assert excluded[..|excluded|] == excluded;
    }

    /** is_empty: every message of the batch has been confirmed. */
    method IsEmpty() returns (r: bool)
      ensures r <==> ids == {}
      ensures r <==> forall m :: m !in ids
    {
      r := |ids| == 0;
    }

    /** __contains__: the message is still waiting for confirmation. */
    method Contains(messageId: MessageId) returns (r: bool)
      ensures r <==> messageId in ids
    {
      r := messageId in ids;
    }
  }
}
