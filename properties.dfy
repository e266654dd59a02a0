/** Properties of the optional container that relate several calls: decoding
    followed by encoding, sequences of decodes into one field (the way an
    enclosing struct is decoded again and again), and the effect of swapping
    the codec. */
module OptionalProperties {
  import opened Optional

  // ---------------------------------------------------------------------
  // Encoding

  /** Encoding never looks at the set flag. */
  lemma MarshalIgnoresSet<T>(t: Type<T>, m: Marshaller<T>)
    ensures t.MarshalJSON(m) == t.(s := !t.s).MarshalJSON(m)
  {
  }

  /** A marshaller that returns a fixed literal makes every non-null value
      encode to that literal, and leaves null values encoding to `null`. */
  lemma FixedMarshaller<T>(t: Type<T>, literal: seq<byte>)
    ensures t.MarshalJSON(_ => (literal, None)) == if t.n then (NULL, None) else (literal, None)
  {
  }

  // ---------------------------------------------------------------------
  // Decoding, then encoding

  /** Decoding `null` gives the null state whatever came before, and that
      state encodes back to exactly `null`, whatever the marshaller. */
  lemma NullRoundTrip<T>(prior: Type<T>, zero: T, u: Unmarshaller<T>, m: Marshaller<T>)
    ensures Unmarshal(prior, NULL, zero, u) == (Type(zero, true, true), None)
    ensures Unmarshal(prior, NULL, zero, u).0.MarshalJSON(m) == (NULL, None)
  {
  }

  /** A marshaller and an unmarshaller are inverse when every encoding that
      succeeds decodes, from the zero value, back to the value encoded. */
  ghost predicate RoundTrips<T(!new)>(m: Marshaller<T>, u: Unmarshaller<T>, zero: T)
  {
    forall x :: m(x).1 == None ==> u(m(x).0, zero) == (x, None)
  }

  /** With an inverse codec, a non-null value whose encoding is neither empty
      nor `null` decodes back to the same payload, now marked set. */
  lemma ValueRoundTrip<T(!new)>(t: Type<T>, prior: Type<T>, zero: T, m: Marshaller<T>, u: Unmarshaller<T>)
    requires RoundTrips(m, u, zero)
    requires !t.n && m(t.v).1 == None
    requires |m(t.v).0| > 0 && m(t.v).0 != NULL
    ensures Unmarshal(prior, t.MarshalJSON(m).0, zero, u) == (Type(t.v, false, true), None)
  {
  }

  /** The round trip loses the difference between a non-null value and null
      when the marshaller itself writes `null` for the payload (as
      `json.Marshal` does for a nil pointer, slice or map): it comes back
      explicitly null, payload reset. */
  lemma NullEncodedPayloadComesBackNull<T>(t: Type<T>, prior: Type<T>, zero: T, m: Marshaller<T>, u: Unmarshaller<T>)
    requires !t.n && m(t.v).0 == NULL
    ensures Unmarshal(prior, t.MarshalJSON(m).0, zero, u).0 == Type(zero, true, true)
  {
  }

  /** The absent state does not survive a round trip: an unset, non-null
      value is encoded by the marshaller like any other, and a non-empty
      encoding decodes back marked set. */
  lemma UnsetComesBackSet<T>(t: Type<T>, prior: Type<T>, zero: T, m: Marshaller<T>, u: Unmarshaller<T>)
    requires !t.s && !t.n && |m(t.v).0| > 0
    ensures t.MarshalJSON(m) == m(t.v)
    ensures Unmarshal(prior, t.MarshalJSON(m).0, zero, u).0.s
  {
  }

  // ---------------------------------------------------------------------
  // The consistency invariant

  /** Decoding keeps `n ==> s`, and establishes it from any state when the
      input is not empty. */
  lemma UnmarshalKeepsConsistent<T>(t: Type<T>, bytes: seq<byte>, zero: T, u: Unmarshaller<T>)
    requires Consistent(t) || |bytes| > 0
    ensures Consistent(Unmarshal(t, bytes, zero, u).0)
  {
  }

  /** Direct construction does not establish it: `New(x, true)` is null but
      not set. */
  lemma NewCanBreakConsistency<T>(x: T)
    ensures !Consistent(New(x, true))
    ensures Consistent(New(x, false))
  {
  }

  /** A non-empty input determines the outcome on its own: what the value
      held before is forgotten. */
  lemma UnmarshalForgetsPrior<T>(t1: Type<T>, t2: Type<T>, bytes: seq<byte>, zero: T, u: Unmarshaller<T>)
    requires |bytes| > 0
    ensures Unmarshal(t1, bytes, zero, u) == Unmarshal(t2, bytes, zero, u)
  {
  }

  // ---------------------------------------------------------------------
  // Sequences of decodes into one field

  /** The value left after decoding each of `inputs` into `t`, in order,
      errors ignored. */
  function UnmarshalEach<T>(t: Type<T>, inputs: seq<seq<byte>>, zero: T, u: Unmarshaller<T>): (r: Type<T>)
    decreases |inputs|
  {
    if |inputs| == 0 then t
    else Unmarshal(UnmarshalEach(t, inputs[..|inputs| - 1], zero, u), inputs[|inputs| - 1], zero, u).0
  }

  /** The last non-empty input, if there is one. */
  function LastPresent(inputs: seq<seq<byte>>): (r: Option<seq<byte>>)
    ensures r.None? <==> forall i :: 0 <= i < |inputs| ==> |inputs[i]| == 0
    ensures r.Some? ==> |r.value| > 0 &&
                        (exists i :: 0 <= i < |inputs| && inputs[i] == r.value &&
                                     forall j :: i < j < |inputs| ==> |inputs[j]| == 0)
    decreases |inputs|
  {
    if |inputs| == 0 then None
    else if |inputs[|inputs| - 1]| > 0 then Some(inputs[|inputs| - 1])
    else
      var r := LastPresent(inputs[..|inputs| - 1]);
      assert forall i :: 0 <= i < |inputs| - 1 ==> inputs[..|inputs| - 1][i] == inputs[i];
      r
  }

  /** The last input present wins: after a sequence of decodes the field
      holds what decoding the last non-empty input alone gives, and it is
      untouched when every input was empty. */
  lemma {:induction false} LastPresentWins<T>(t: Type<T>, inputs: seq<seq<byte>>, zero: T, u: Unmarshaller<T>)
    ensures UnmarshalEach(t, inputs, zero, u) ==
            match LastPresent(inputs)
            case None => t
            case Some(b) => Unmarshal(t, b, zero, u).0
    decreases |inputs|
  {
    if |inputs| > 0 {
      var init := inputs[..|inputs| - 1];
      var last := inputs[|inputs| - 1];
      if |last| > 0 {
        UnmarshalForgetsPrior(UnmarshalEach(t, init, zero, u), t, last, zero, u);
      } else {
        LastPresentWins(t, init, zero, u);
      }
    }
  }

  /** Once any input was present, the field is set and consistent. */
  lemma UnmarshalEachMarksSet<T>(t: Type<T>, inputs: seq<seq<byte>>, zero: T, u: Unmarshaller<T>, k: nat)
    requires k < |inputs| && |inputs[k]| > 0
    ensures UnmarshalEach(t, inputs, zero, u).s
    ensures Consistent(UnmarshalEach(t, inputs, zero, u))
  {
    LastPresentWins(t, inputs, zero, u);
    assert LastPresent(inputs).Some?;
  }

  /** The field states of a struct decoded four times over, from a zero
      field: `{"f":"some"}`, `{"f":null}`, `{"f":"some"}` again and `{}`
      (the field is then omitted, which leaves it as it is). */
  lemma MergeScenario<T>(zero: T, u: Unmarshaller<T>, some: seq<byte>, w: T)
    requires |some| > 0 && some != NULL
    requires u(some, zero) == (w, None)
    ensures var start := New(zero, false);
            && UnmarshalEach(start, [some], zero, u) == Type(w, false, true)
            && UnmarshalEach(start, [some, NULL], zero, u) == Type(zero, true, true)
            && UnmarshalEach(start, [some, NULL, some], zero, u) == Type(w, false, true)
            && UnmarshalEach(start, [some, NULL, some, []], zero, u) == Type(w, false, true)
  {
  }

  // ---------------------------------------------------------------------
  // Replaceable unmarshallers

  /** An unmarshaller that never writes its target (as a custom decoder may
      do) leaves a decoded non-null value at zero, set and not null. */
  lemma IgnoringUnmarshaller<T>(prior: Type<T>, bytes: seq<byte>, zero: T)
    requires |bytes| > 0 && bytes != NULL
    ensures Unmarshal(prior, bytes, zero, (_, target) => (target, None)) == (Type(zero, false, true), None)
  {
  }

  /** An unmarshaller's error comes back as it is, with the value set, not
      null, and holding what the unmarshaller left in the target. */
  lemma ErrorPassesThrough<T>(prior: Type<T>, bytes: seq<byte>, zero: T, e: Error)
    requires |bytes| > 0 && bytes != NULL
    ensures Unmarshal(prior, bytes, zero, (_, target) => (target, Some(e))) == (Type(zero, false, true), Some(e))
  {
  }

  // ---------------------------------------------------------------------
  // Swapping the codec on live objects

  /** Encoding through a temporarily swapped marshaller that returns a fixed
      literal, then restoring the previous one: a non-null field encodes to
      the literal whatever it holds, a null one to `null`, and the codec ends
      as it began. */
  method EncodeWithSwappedMarshaller<T>(codec: Codec<T>, field: Field<T>, literal: seq<byte>)
    returns (r: (seq<byte>, Option<Error>))
    modifies codec
    ensures r == if field.n then (NULL, None) else (literal, None)
    ensures codec.marshaller == old(codec.marshaller)
    ensures codec.unmarshaller == old(codec.unmarshaller)
  {
    var saved := codec.marshaller;
    codec.ChangeMarshal(_ => (literal, None));
    r := field.MarshalJSON(codec);
    codec.ChangeMarshal(saved);
  }

  /** Decoding through a temporarily swapped unmarshaller, then restoring
      the previous one: the field and the error are what the swapped
      unmarshaller makes of the input, and the codec ends as it began. */
  method DecodeWithSwappedUnmarshaller<T>(codec: Codec<T>, field: Field<T>, bytes: seq<byte>, u: Unmarshaller<T>)
    returns (err: Option<Error>)
    modifies codec, field
    ensures (field.Value(), err) == Unmarshal(old(field.Value()), bytes, field.zero, u)
    ensures codec.marshaller == old(codec.marshaller)
    ensures codec.unmarshaller == old(codec.unmarshaller)
  {
    var saved := codec.unmarshaller;
    codec.ChangeUnmarshal(u);
    err := field.UnmarshalJSON(codec, bytes);
    codec.ChangeUnmarshal(saved);
  }
}
