/** The event order that the generator's stream shuffles, for a published key. */
module KnownAnswers {
  import opened Prelude
  import opened Bootstrap
  import opened Permutation
  import Philox

  /** The deterministic stream of a key; draw ordinals are 64-bit words. */
  function StreamOf(key: Philox.Key): Stream {
    (ordinal: nat) => Philox.DrawOf(key, (ordinal % TWO_64) as bv64) as int
  }

  /** The first draws of the event-order stream, as numbers. */
  lemma EventStream()
    ensures var stream := StreamOf(Philox.Key(0x2044_97C9, 0x221F_BF67));
            && stream(0) == 0x2258_5625_D47A_C20B
            && stream(1) == 0x0390_75E0_B498_01FA
            && stream(2) == 0x3A5A_2942_E799_4FAB
            && stream(3) == 0x034A_810C_34CB_23FE
            && stream(4) == 0xA3D1_0E5C_73FD_358D
            && stream(5) == 0xD32C_4DF9_B998_80F7
            && stream(6) == 0xA050_FD4C_6939_6CC8
  {
    hide Philox.DrawOf;
    Philox.EventKeyDraws();
  }

  /** Small bounds reject only draws smaller than the bound. */
  lemma Accepted(stream: Stream, bound: u64, start: nat)
    requires 0 < bound <= stream(start) && start < U64_MAX
    ensures Pick(stream, bound, start) == Some(start)
  {
    hide Threshold;
  }

  /** Eight events in the order of the published key. */
  lemma EventOrder()
    ensures var selections := Selections(StreamOf(Philox.Key(0x2044_97C9, 0x221F_BF67)), 8, 0);
            && selections.Some? && Choices(selections.value, 8)
            && Shuffle(Identity(8), 8, selections.value) == [7, 4, 0, 5, 2, 6, 1, 3]
  {
    hide Shuffled, StreamOf, Selections, Shuffle, Choices;
    var stream := StreamOf(Philox.Key(0x2044_97C9, 0x221F_BF67));
    EventStream();
    FirstSwaps(stream);
    LastSwaps(stream);
    ShuffledIs(stream, Identity(8), 8, 0);
  }

  lemma FirstSwaps(stream: Stream)
    requires stream(0) == 0x2258_5625_D47A_C20B && stream(1) == 0x0390_75E0_B498_01FA
    requires stream(2) == 0x3A5A_2942_E799_4FAB && stream(3) == 0x034A_810C_34CB_23FE
    ensures Shuffled(stream, Identity(8), 8, 0) == Shuffled(stream, [0, 5, 4, 7, 2, 6, 1, 3], 4, 4)
  {
    hide Shuffled;
    assert Identity(8) == [0, 1, 2, 3, 4, 5, 6, 7];
    Turn(stream, [0, 1, 2, 3, 4, 5, 6, 7], 8, 0, 3, [0, 1, 2, 7, 4, 5, 6, 3]);
    Turn(stream, [0, 1, 2, 7, 4, 5, 6, 3], 7, 1, 1, [0, 6, 2, 7, 4, 5, 1, 3]);
    Turn(stream, [0, 6, 2, 7, 4, 5, 1, 3], 6, 2, 1, [0, 5, 2, 7, 4, 6, 1, 3]);
    Turn(stream, [0, 5, 2, 7, 4, 6, 1, 3], 5, 3, 2, [0, 5, 4, 7, 2, 6, 1, 3]);
  }

  lemma LastSwaps(stream: Stream)
    requires stream(4) == 0xA3D1_0E5C_73FD_358D && stream(5) == 0xD32C_4DF9_B998_80F7
    requires stream(6) == 0xA050_FD4C_6939_6CC8
    ensures Shuffled(stream, [0, 5, 4, 7, 2, 6, 1, 3], 4, 4) == Some([7, 4, 0, 5, 2, 6, 1, 3])
  {
    hide Pick;
    Turn(stream, [0, 5, 4, 7, 2, 6, 1, 3], 4, 4, 1, [0, 7, 4, 5, 2, 6, 1, 3]);
    Turn(stream, [0, 7, 4, 5, 2, 6, 1, 3], 3, 5, 0, [4, 7, 0, 5, 2, 6, 1, 3]);
    Turn(stream, [4, 7, 0, 5, 2, 6, 1, 3], 2, 6, 0, [7, 4, 0, 5, 2, 6, 1, 3]);
    assert Shuffled(stream, [7, 4, 0, 5, 2, 6, 1, 3], 1, 7) == Some([7, 4, 0, 5, 2, 6, 1, 3]);
  }

  /** One swap of the shuffle. */
  lemma Turn(stream: Stream, a: seq<nat>, remaining: nat, ordinal: nat, selected: nat, next: seq<nat>)
    requires 1 < remaining <= |a| && remaining <= U64_MAX && ordinal < U64_MAX && stream(ordinal) >= remaining
    requires selected == stream(ordinal) % remaining
    requires next == a[remaining - 1 := a[selected]][selected := a[remaining - 1]]
    ensures Shuffled(stream, a, remaining, ordinal) == Shuffled(stream, next, remaining - 1, ordinal + 1)
  {
    hide Pick;
    Accepted(stream, remaining, ordinal);
  }
}
