/**
 * Transient on-screen notifications (`FlashMessage` in src/main.rs). Every
 * message is drawn each frame it is alive and despawned once the frame's
 * time has reached its expiry time. Identical messages may coexist.
 */
module Flash {
  import opened Egui

  datatype FlashMessage = FlashMessage(message: string, color: Color32, timeExpire: real)

  /** The test `flash_message` applies to decide a despawn. */
  predicate Expired(m: FlashMessage, now: real) {
    m.timeExpire <= now
  }

  /**
   * The messages that survive `flash_message` at time `now`. Exactly the
   * expired ones go, with every copy of them; every live one stays with all
   * its copies.
   */
  function Unexpired(msgs: seq<FlashMessage>, now: real): (r: seq<FlashMessage>)
    ensures |r| <= |msgs|
  {
    if msgs == [] then []
    else
      assert msgs == [msgs[0]] + msgs[1..];
      (if Expired(msgs[0], now) then [] else [msgs[0]]) + Unexpired(msgs[1..], now)
  }

  /**
   * Filtering commutes with concatenation: the survivors keep the order
   * they had among the messages.
   */
  lemma {:induction false} UnexpiredAppend(a: seq<FlashMessage>, b: seq<FlashMessage>, now: real)
    ensures Unexpired(a + b, now) == Unexpired(a, now) + Unexpired(b, now)
  {
    if a == [] {
      assert a + b == b;
    } else {
      var head := if Expired(a[0], now) then [] else [a[0]];
      calc {
        Unexpired(a + b, now);
        { assert (a + b)[1..] == a[1..] + b; assert (a + b)[0] == a[0]; }
        head + Unexpired(a[1..] + b, now);
        { UnexpiredAppend(a[1..], b, now); }
        head + (Unexpired(a[1..], now) + Unexpired(b, now));
        (head + Unexpired(a[1..], now)) + Unexpired(b, now);
      }
    }
  }

  /**
   * No deduplication: a live message keeps every one of its copies, and an
   * expired one loses all of them.
   */
  lemma {:induction false} UnexpiredMultiplicity(msgs: seq<FlashMessage>, now: real, m: FlashMessage)
    ensures multiset(Unexpired(msgs, now))[m] == if Expired(m, now) then 0 else multiset(msgs)[m]
  {
    if msgs != [] {
      var head := if Expired(msgs[0], now) then [] else [msgs[0]];
      assert msgs == [msgs[0]] + msgs[1..];
      assert Unexpired(msgs, now) == head + Unexpired(msgs[1..], now);
      UnexpiredMultiplicity(msgs[1..], now, m);
    }
  }

  /** A message survives exactly when it was there and has not expired. */
  lemma UnexpiredMembers(msgs: seq<FlashMessage>, now: real, m: FlashMessage)
    ensures m in Unexpired(msgs, now) <==> m in msgs && !Expired(m, now)
  {
    UnexpiredMultiplicity(msgs, now, m);
  }

  /** A frame at which no message has expired despawns nothing. */
  lemma {:induction false} UnexpiredAllLive(msgs: seq<FlashMessage>, now: real)
    requires forall i :: 0 <= i < |msgs| ==> !Expired(msgs[i], now)
    ensures Unexpired(msgs, now) == msgs
  {
    if msgs != [] {
      UnexpiredAllLive(msgs[1..], now);
    }
  }

  /** Expiry is idempotent: a second pass at the same time removes nothing. */
  lemma UnexpiredIdempotent(msgs: seq<FlashMessage>, now: real)
    ensures Unexpired(Unexpired(msgs, now), now) == Unexpired(msgs, now)
  {
    var r := Unexpired(msgs, now);
    forall i | 0 <= i < |r| ensures !Expired(r[i], now) {
      UnexpiredMembers(msgs, now, r[i]);
    }
    UnexpiredAllLive(r, now);
  }
}
