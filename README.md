# optional: a tri-state JSON field, modelled in Dafny

The Go package `optional` provides a generic container `Type[T]` for JSON. A
field can be in one of three states. It can be absent from the input. It can be
present as the literal `null`. Or it can be present with a value. The container
keeps the payload `V` and two flags: `n` (explicitly null) and `s` (set). Its
`UnmarshalJSON` and `MarshalJSON` hooks give `encoding/json` the tri-state
behaviour. Non-null content goes to two package-level functions, `marshaller`
and `unmarshaller`. `ChangeMarshal` and `ChangeUnmarshal` replace them.

The model has two modules:

- `Optional` (optional.dfy) holds the container and its codec.
  - `Type<T>` is the Go struct as a value. `IsSetNull`, `IsSet` and
    `MarshalJSON` are functions on it, since Go gives them value receivers.
    `New` is a module-level function that builds one.
  - `Field<T>` is the struct stored in place, the place a `*Type[T]` receiver
    points at. Its `UnmarshalJSON` updates the fields `v`, `s`, `n` step by
    step, as the Go method does. It is proved against the pure function
    `Unmarshal`. Its `MarshalJSON` encodes the stored value with the codec's
    current marshaller.
  - `Codec<T>` holds the package-level `marshaller` and `unmarshaller` as
    function-valued fields. `ChangeMarshal` and `ChangeUnmarshal` reassign
    them.
  - Go's `error` is `Option<Error>`, where `None` stands for `nil`. Bytes are
    `seq<byte>`. `NULL` is the four-byte literal `null`.
  - Go's zero value of `T` cannot be written generically in Dafny. It is a
    parameter `zero`, kept as a constant of each `Field`.
  - An unmarshaller is `(bytes, target) -> (target', error)`. This models
    Go's `unmarshaller(bytes, &t.V)`, which may write the target, leave it
    alone or write part of it. The target it receives is always `zero`.
- `OptionalProperties` (properties.dfy) holds the properties that relate
  several calls:
  - decode followed by encode;
  - the invariant `n ==> s`;
  - sequences of decodes into one field, as when a struct is decoded again and
    again;
  - the codec swaps that the package's tests exercise.

## Model

| member | source | states |
|---|---|---|
| `Optional.New` | optional.go:34-40 | the payload and null flag are as given, and a directly built value is never marked set |
| `Optional.Type.IsSetNull` | optional.go:42-45 | reports exactly the explicit-null flag; it is a pure read |
| `Optional.Type.IsSet` | optional.go:47-50 | reports exactly the set flag; it is a pure read |
| `Optional.Type.MarshalJSON` | optional.go:81-91 | a null value encodes to exactly `null` with no error, whatever its payload; otherwise the result is the current marshaller's output for the payload, bytes and error unchanged |
| `Optional.Unmarshal` | optional.go:57-79 | empty input changes nothing and succeeds; any other input marks the value set and makes `n ==> s` hold; `n` is set iff the input is exactly `null`; `null` resets the payload and succeeds; any other input yields exactly the unmarshaller's target and error, and the unmarshaller is handed the zero value |
| `Optional.Field.UnmarshalJSON` | optional.go:60-79 | the stored value and the returned error are what `Unmarshal` gives for the old stored value, using the codec's current unmarshaller; empty input leaves the object untouched |
| `Optional.Field.MarshalJSON` | optional.go:84-91 | encoding through the pointer uses whichever marshaller the codec holds at the time of the call: `null` for a null value, otherwise that marshaller's output for the payload |
| `Optional.Field.constructor` | optional.go:27-32 | a stored field starts with the given value |
| `Optional.Codec.constructor` | optional.go:8-11 | the codec starts with the supplied default marshaller and unmarshaller |
| `Optional.Codec.ChangeMarshal` | optional.go:13-18 | the marshaller becomes the given one and the unmarshaller is kept |
| `Optional.Codec.ChangeUnmarshal` | optional.go:20-25 | the unmarshaller becomes the given one and the marshaller is kept |
| `OptionalProperties.MarshalIgnoresSet` | optional.go:84-91 | flipping the set flag never changes the encoding |
| `OptionalProperties.FixedMarshaller` | optional_test.go:135-162 | with a marshaller that returns a fixed literal, every non-null value encodes to that literal and null values still encode to `null` |
| `OptionalProperties.NullRoundTrip` | optional.go:65-75 | decoding `null` gives payload zero, null and set, with no error, from any prior state; the result encodes back to exactly `null` |
| `OptionalProperties.ValueRoundTrip` | optional.go:77-90 | with a marshaller and unmarshaller that are inverse, a non-null value whose encoding is neither empty nor `null` decodes back to the same payload, set and not null, with no error |
| `OptionalProperties.NullEncodedPayloadComesBackNull` | optional.go:71-90 | a non-null value whose payload the marshaller writes as `null` decodes back as explicitly null with a zero payload, so this round trip does not preserve the state |
| `OptionalProperties.UnsetComesBackSet` | optional.go:82-91 | an unset, non-null value encodes to the marshaller's output like any other, and a non-empty encoding decodes back marked set, so the absent state is not preserved by a round trip |
| `OptionalProperties.UnmarshalKeepsConsistent` | optional.go:67-72 | decoding keeps `n ==> s`, and a non-empty input establishes it from any state |
| `OptionalProperties.NewCanBreakConsistency` | optional.go:35-40 | `New(x, true)` is null but not set; `New(x, false)` satisfies `n ==> s` |
| `OptionalProperties.UnmarshalForgetsPrior` | optional.go:65-78 | for a non-empty input, the result and error do not depend on the prior value |
| `OptionalProperties.LastPresentWins` | optional_test.go:223-258 | after a sequence of decodes, the field holds what the last non-empty input alone gives, or is untouched when every input was empty |
| `OptionalProperties.UnmarshalEachMarksSet` | optional.go:67-69 | once any input in a sequence was non-empty, the field ends set and satisfies `n ==> s` |
| `OptionalProperties.MergeScenario` | optional_test.go:223-258 | the field states after decoding `"some"`, `null`, `"some"` and then an omitted field are: value and not null, zero and null, value and not null, and that state unchanged |
| `OptionalProperties.IgnoringUnmarshaller` | optional_test.go:164-199 | an unmarshaller that never writes its target leaves a decoded non-null value at zero, set, not null, with no error |
| `OptionalProperties.ErrorPassesThrough` | optional_test.go:201-221 | an unmarshaller's error is returned unchanged, and the value is set and not null |
| `OptionalProperties.EncodeWithSwappedMarshaller` | optional_test.go:135-162 | after swapping in a marshaller that returns a fixed literal, encoding a non-null field gives that literal whatever the field holds, a null field gives `null`, and restoring the old marshaller leaves the codec as it began |
| `OptionalProperties.DecodeWithSwappedUnmarshaller` | optional_test.go:186-198 | after swapping in an unmarshaller, decoding into a field gives exactly what `Unmarshal` gives with that unmarshaller, and restoring the old one leaves the codec as it began |

## Left out

- The behaviour of `encoding/json`'s `json.Marshal` and `json.Unmarshal`, and of third-party codecs, is not modelled. These are foreign library calls. They appear only as function-valued parameters with their result types, and `Codec`'s constructor receives them as arguments.
- The struct-level driving done by `json.Unmarshal` is not modelled. That library decides whether to call a field's `UnmarshalJSON` at all; for example, `{}` or a top-level `null` never reaches the field. Only the field-level method and the sequence of calls it receives are modelled. An omitted field is either no call or an empty input, and both leave the field unchanged.
- Concurrent use of the package-level `marshaller`/`unmarshaller` is not modelled. The codec is treated as single-threaded state.
- The compile-time interface assertions at optional.go:52-55 have no behaviour and are not modelled.
- Go keeps one `marshaller` and one `unmarshaller`, typed over `any`, for all instantiations. The model has one `Codec<T>` per payload type `T`. A swap is therefore seen only by the containers of that `T`.
- Errors are compared by value. The identity of an `errors.New` value, as checked by `errors.Is`, is represented only by that value being returned unchanged.
- `OptionalProperties.ValueRoundTrip` assumes that the marshaller and unmarshaller are exact inverses. It does not model decode-equivalence up to reformatting.
- The invariant `n ==> s` is guaranteed only after a non-empty decode. The code's `New(x, true)` breaks it, while `New(x, false)` and the zero value satisfy it (`NewCanBreakConsistency`). A directly built value may also carry a non-zero payload while unset. The model follows the code here.
- `Optional.Type.MarshalJSON` does not represent unset values as empty, although the doc comment at optional.go:82-83 says it does. The code at optional.go:84-91 never reads `s`, so an unset, non-null value is encoded by the marshaller. It then comes back marked set (`UnsetComesBackSet`). The model follows the code.
- A failed non-null decode leaves the payload as the unmarshaller left it. It is not necessarily zero. The model follows the code and does not promise a zero payload after an error.
