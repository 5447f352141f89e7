/** Which capability answers lead to a configuration, and to which one. */
module AvdtpChoice {
  import opened Wire
  import opened AvdtpSpec

  // ----- well-formed payloads

  /** One byte can carry each length. */
  predicate Fit(es: seq<Element>) {
    forall k | 0 <= k < |es| :: |es[k].value| < 0x100
  }

  /** The service elements of an answer on the wire: category, length, value. */
  function Joined(es: seq<Element>): seq<Byte>
    requires Fit(es)
  {
    if es == [] then [] else [es[0].category, |es[0].value|] + es[0].value + Joined(es[1..])
  }

  /** Reading takes a joined list apart again, so its elements are the only ones a payload has. */
  lemma {:induction false} JoinedElements(es: seq<Element>)
    requires Fit(es)
    ensures Elements(Joined(es)) == (es, true)
  {
    if es != [] {
      var t, e := Joined(es), es[0];
      JoinedElements(es[1..]);
      assert t[2..2 + t[1]] == e.value;
      assert t[2 + t[1]..] == Joined(es[1..]);
      assert es == [Element(e.category, e.value)] + es[1..];
    }
  }

  /** A payload is well-formed exactly when it is some list of elements joined. */
  lemma {:induction false} WholeIsJoined(payload: seq<Byte>)
    ensures var (es, whole) := Elements(payload);
            && Fit(es)
            && (whole <==> payload == Joined(es))
    decreases |payload|
  {
    if |payload| >= 2 && 2 + payload[1] as int <= |payload| {
      var next := 2 + payload[1] as int;
      WholeIsJoined(payload[next..]);
      var (rest, _) := Elements(payload[next..]);
      var (es, _) := Elements(payload);
      assert es[0] == Element(payload[0], payload[2..next]) && es[1..] == rest;
      assert payload == [payload[0], payload[1]] + payload[2..next] + payload[next..];
      assert Joined(es)[next..] == Joined(rest);
    }
  }

  // ----- what an element offers

  /** SBC with everything this source insists on: 44.1 kHz, 16 blocks, 8 subbands, Loudness. */
  predicate IsSbc(e: Element) {
    && e.category == MEDIA_CODEC && |e.value| == 6 && e.value[0] == 0 && e.value[1] == 0
    && Has(e.value[2], 0x20) && Has(e.value[3], 0x10) && Has(e.value[3], 0x04) && Has(e.value[3], 0x01)
  }

  predicate Stereo(e: Element)
    requires IsSbc(e)
  {
    Has(e.value[2], 0x02)
  }

  predicate Joint(e: Element)
    requires IsSbc(e)
  {
    Has(e.value[2], 0x01)
  }

  /** The element lets this source send at `bitpool`, one of the bitpools it is willing to use. */
  predicate Offers(e: Element, bitpool: int) {
    IsSbc(e) && (Stereo(e) || Joint(e)) && e.value[4] <= bitpool <= e.value[5] && MIN_BITPOOL <= bitpool <= PREFERRED_MAX_BITPOOL
  }

  ghost predicate Suits(e: Element) {
    exists bitpool :: Offers(e, bitpool)
  }

  /** The configuration stays inside the offer, is as wide as it can be, and prefers stereo. */
  ghost predicate Within(config: Sbc, e: Element) {
    && IsSbc(e) && config.shape == 0x15
    && config.frequencyChannel == (if Stereo(e) then 0x22 else 0x21) && (Stereo(e) || Joint(e))
    && config.minimum <= config.maximum
    && (forall bitpool :: config.minimum <= bitpool <= config.maximum <==> Offers(e, bitpool))
  }

  lemma UsableIsSuitable(e: Element)
    ensures Usable(e).Some? <==> Suits(e)
    ensures Usable(e).Some? ==> Within(Usable(e).value, e)
  {
    if Usable(e).Some? {
      assert Offers(e, Usable(e).value.minimum);
    }
    if bitpool :| Offers(e, bitpool) {
      assert Usable(e).Some?;
    }
  }

  /** `k` is the last element of the list that suits. */
  ghost predicate LastSuitable(es: seq<Element>, k: int) {
    0 <= k < |es| && Suits(es[k]) && forall j | k < j < |es| :: !Suits(es[j])
  }

  lemma {:induction false} FoundIsLast(es: seq<Element>)
    ensures Found(es) == None <==> forall e | e in es :: !Suits(e)
    ensures Found(es).Some? ==> exists k | LastSuitable(es, k) :: Within(Found(es).value, es[k])
  {
    hide Suits, Within, Usable;
    if es != [] {
      FoundIsLast(es[1..]);
      UsableIsSuitable(es[0]);
      assert es == [es[0]] + es[1..];
      if Found(es[1..]).Some? {
        var k :| LastSuitable(es[1..], k) && Within(Found(es[1..]).value, es[1..][k]);
        assert es[k + 1] == es[1..][k];
        assert forall j | k + 1 < j < |es| :: es[j] == es[1..][j - 1];
        assert LastSuitable(es, k + 1);
      } else if Usable(es[0]).Some? {
        assert forall j | 0 < j < |es| :: es[j] in es[1..];
        assert LastSuitable(es, 0);
      }
    }
  }

  /**
   * For a well-formed answer the source configures exactly when some element suits; the choice lies in the offer of
   * the last such element, and the packet sent names both end points and those services.
   */
  lemma ChoiceIsExact(s: Source, es: seq<Element>, room: nat)
    requires room >= ROOM && Fit(es)
    ensures var o := ChooseSbc(s, Joined(es), room);
            if exists e | e in es :: Suits(e) then
              && (exists k | LastSuitable(es, k) :: Within(o.source.sbc, es[k]))
              && o.source == s.(state := Configuring, sbc := o.source.sbc, delayReporting := OffersDelay(es),
                                codecCaps := o.source.codecCaps, next := (s.next % 16 + 1) % 16,
                                pendingTransaction := s.next % 16, pendingSignal := SET_CONFIGURATION)
              && o.written == Message(s.next % 16, MSG_COMMAND, SET_CONFIGURATION,
                                      [Shifted(s.remoteSeid), Shifted(s.localSeid)] + Services(o.source.sbc, o.source.delayReporting))
              && o.result == Ok(|o.written|)
            else
              o == NextSink(s.(codecCaps := KeptCaps(s.codecCaps, es)), room)
  {
    hide Suits, Within, NextSink, KeptCaps, Found, OffersDelay, Elements, Joined, Fit, LastSuitable;
    JoinedElements(es);
    FoundIsLast(es);
  }

  /** Anything else is refused as malformed, and nothing is sent or negotiated. */
  lemma MalformedIsRefused(s: Source, payload: seq<Byte>, room: nat)
    requires forall es | Fit(es) :: payload != Joined(es)
    ensures var o := ChooseSbc(s, payload, room);
            o.result == Err(PacketError) && o.written == [] && o.source == s.(codecCaps := o.source.codecCaps)
  {
    WholeIsJoined(payload);
  }
}
