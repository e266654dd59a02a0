/** A tri-state optional value for JSON fields: a field is absent, explicitly
    `null`, or present with a value. `Type<T>` is the value, `Field<T>` the
    addressable slot that `UnmarshalJSON` updates through its pointer receiver,
    and `Codec<T>` the package-wide, replaceable pair of JSON functions that the
    container delegates to for non-null content. */
module Optional {

  newtype byte = b: int | 0 <= b < 256

  datatype Option<X> = None | Some(value: X)

  /** A Go `error` value; `None` plays the part of `nil`. */
  datatype Error = Error(message: string)

  /** The four bytes of the JSON literal `null` (ASCII n, u, l, l). */
  const NULL: seq<byte> := [0x6E, 0x75, 0x6C, 0x6C]

  /** The shape of `json.Marshal`: a value to its encoding and an error. */
  type Marshaller<!T> = T -> (seq<byte>, Option<Error>)

  /** The shape of `json.Unmarshal`: the input bytes and what the target holds
      when it is called, to what the target holds afterwards and an error.
      A decoder may leave the target as it found it. */
  type Unmarshaller<!T> = (seq<byte>, T) -> (T, Option<Error>)

  /** A value that may be absent, explicitly null, or set:
      `v` is the payload, `n` the explicit-null flag, `s` the set flag. */
  datatype Type<T> = Type(v: T, n: bool, s: bool)
  {
    /** Whether the value was explicitly set to null. */
    function IsSetNull(): (r: bool)
      ensures r <==> n
    {
      n
    }

    /** Whether the value was set, to null or to content. */
    function IsSet(): (r: bool)
      ensures r <==> s
    {
      s
    }

    /** The JSON encoding: the literal `null` when the null flag is up,
        whatever the payload holds; otherwise exactly what the marshaller
        makes of the payload, bytes and error alike. The set flag plays no
        part. */
    function MarshalJSON(marshaller: Marshaller<T>): (r: (seq<byte>, Option<Error>))
      ensures n ==> r == (NULL, None)
      ensures !n ==> r == marshaller(v)
    {
      if n then (NULL, None) else marshaller(v)
    }
  }

  /** Direct construction: payload and null flag as given, never marked set. */
  function New<T>(value: T, isNull: bool): (t: Type<T>)
    ensures t.v == value
    ensures t.IsSetNull() == isNull
    ensures !t.IsSet()
  {
    Type(v := value, n := isNull, s := false)
  }

  /** The invariant a decoded value keeps: explicitly null implies set. */
  ghost predicate Consistent<T>(t: Type<T>)
  {
    t.n ==> t.s
  }

  /** What `UnmarshalJSON` does to a value `t` given the input `bytes`, the
      zero value of `T` and the current unmarshaller: the new value and the
      error returned. */
  function Unmarshal<T>(t: Type<T>, bytes: seq<byte>, zero: T, unmarshaller: Unmarshaller<T>): (r: (Type<T>, Option<Error>))
    // empty input (an omitted field) changes nothing and succeeds
    ensures |bytes| == 0 ==> r == (t, None)
    // any other input marks the value as set, even when decoding fails
    ensures |bytes| > 0 ==> r.0.s && Consistent(r.0)
    // only the exact four bytes `null` make it null
    ensures |bytes| > 0 ==> (r.0.n <==> bytes == NULL)
    // `null` resets the payload and succeeds
    ensures bytes == NULL ==> r.0.v == zero && r.1 == None
    // everything else is the unmarshaller's, handed the zero value, and its
    // error comes back unchanged
    ensures |bytes| > 0 && bytes != NULL ==> (r.0.v, r.1) == unmarshaller(bytes, zero)
  {
    if |bytes| == 0 then (t, None)
    else
      var reset := Type(zero, false, true);
      if bytes == NULL then (reset.(n := true), None)
      else
        var (v, err) := unmarshaller(bytes, reset.v);
        (reset.(v := v), err)
  }

  /** The package-level `marshaller` and `unmarshaller`, as seen by
      containers of type `T`. */
  class Codec<T> {
    var marshaller: Marshaller<T>
    var unmarshaller: Unmarshaller<T>

    /** The package's initial state: `json.Marshal` and `json.Unmarshal`,
        which are supplied by the caller. */
    constructor (marshal: Marshaller<T>, unmarshal: Unmarshaller<T>)
      ensures marshaller == marshal && unmarshaller == unmarshal
    {
      marshaller := marshal;
      unmarshaller := unmarshal;
    }

    /** Replaces the marshaller used by every later encode. */
    method ChangeMarshal(m: Marshaller<T>)
      modifies this
      ensures marshaller == m
      ensures unmarshaller == old(unmarshaller)
    {
      marshaller := m;
    }

    /** Replaces the unmarshaller used by every later decode. */
    method ChangeUnmarshal(u: Unmarshaller<T>)
      modifies this
      ensures unmarshaller == u
      ensures marshaller == old(marshaller)
    {
      unmarshaller := u;
    }
  }

  /** A `Type<T>` stored in place (a struct field), updated through a pointer
      by `UnmarshalJSON`. `zero` stands for Go's zero value of `T`. */
  class Field<T> {
    var v: T
    var n: bool
    var s: bool
    const zero: T

    constructor (init: Type<T>, zero: T)
      ensures Value() == init && this.zero == zero
    {
      v, n, s := init.v, init.n, init.s;
      this.zero := zero;
    }

    /** The value currently stored. */
    function Value(): (t: Type<T>)
      reads this
    {
      Type(v, n, s)
    }

    /** The encoding of the stored value with the package's current
        marshaller, as a call made through the pointer sees it: whichever
        marshaller the codec holds at the time of the call is the one used. */
    function MarshalJSON(codec: Codec<T>): (r: (seq<byte>, Option<Error>))
      reads this, codec
      ensures n ==> r == (NULL, None)
      ensures !n ==> r == codec.marshaller(v)
    {
      Value().MarshalJSON(codec.marshaller)
    }

    /** Decodes `bytes` into the stored value, delegating non-null content
        to the codec's current unmarshaller. */
    method UnmarshalJSON(codec: Codec<T>, bytes: seq<byte>) returns (err: Option<Error>)
      modifies this
      ensures (Value(), err) == Unmarshal(old(Value()), bytes, zero, codec.unmarshaller)
      ensures |bytes| == 0 ==> unchanged(this)
    {
      if |bytes| == 0 {
        return None;
      }
      v := zero;
      s := true;
      n := false;
      if bytes == NULL {
        n := true;
        return None;
      }
      var (decoded, e) := codec.unmarshaller(bytes, v);
      v := decoded;
      return e;
    }
  }
}
