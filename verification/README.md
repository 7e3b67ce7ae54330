# phpcassa accessor core in Dafny

This project models the marshalling core of phpcassa, the PHP client for Cassandra's Thrift
interface (`phpcassa.php`):

- **The name codec of `CassandraCF`.** `parse_column_name` and `unparse_column_name` (`NameCodec`)
  choose the column type or the sub-column type of the family. The LongType encoding
  `pack_longtype` / `unpack_longtype` is an 8-byte big-endian integer (`LongCodec`).
- **The encoders.** `array_to_columns`, `array_to_supercolumns_or_columns`, `array_to_mutation`
  and `to_column_value` (`Encoder`) turn a one- or two-level PHP array into Column, SuperColumn
  and Mutation records.
- **The decoders.** `columns_to_array`, `supercolumns_or_columns_to_array` and
  `keyslices_to_array` (`Decoder`) fold Thrift responses back into PHP arrays.
- **The round trip between the two** (`RoundTrip`).
- **The requests that `get`, `multiget`, `get_range`, `insert` and `remove` build** (`Accessor`):
  which codec direction and which flag each call site passes, and how each answer is decoded.
- **The list wrappers** `get_list`, `get_range_list` and `multiget_list` (`Lists`).
- **The connection pool of `CassandraConn`** (`ConnectionPool`): `add_node` and `get_client`, as a
  class whose fields are the connection list, the set of open transports and whether
  `last_error` has been set.

PHP values are modelled as null, byte strings and 64-bit integers (`Php.Value`). A PHP array is
a sequence of (key, value) pairs in insertion order. Storing under a present key overwrites the
value in place; storing under a new key appends (`Php.Put`). A foreach loop that builds
`$ret` from `null` and never stores anything leaves it null; that is the empty sequence here.
A super column without columns decodes to the scalar null, since `columns_to_array` returns null.

The loops of the encoders, the decoders, the list wrappers and `get_client` are methods with
`for`/`while` loops. Each is proved equal to a recursive specification function, and the
properties are proved about those functions.

Two points where the code differs from the usual description of this library:

- **`unpack_longtype` is signed.** `$a[1] << 56` on a 64-bit PHP integer sets the sign bit for a
  first byte of 128 or more, so the decoded integer is signed, not unsigned. The model follows
  the code (`LongCodec.TopByte`). With that reading, `pack_longtype` and `unpack_longtype` are
  inverse on all 64-bit integers.
- **`get` encodes the super column with the column codec.** The code passes `true`, not the
  sub-column codec, and the model follows the code (`Accessor.GetParentNamesSuperColumn`).
  The slice bounds go through the sub-column codec in `get` and `multiget`, but through the
  column codec in `get_range`. This is reproduced as written (`Accessor.GetAndGetRangeBoundsDiffer`).

Two things a name cannot survive under LongType:

- A name that is false in PHP's sense (null, `""`, `"0"`, `0`) is sent and read back as null
  whenever parsing is on.
- So the LongType name `0` cannot be written, although its wire form, eight zero bytes, decodes
  to `0` (`NameCodec.LongZeroIsLost`).

## Model

| member | source | states |
|---|---|---|
| Php.Truthy | phpcassa.php:399 | PHP's conversion to boolean, false exactly for null, "", "0" and 0; a true value is always a valid array key |
| Php.KeyOf | phpcassa.php:315 | the key `$a[$k]` stores under is always a valid key, and a valid key is stored as itself (only null becomes "") |
| Php.ToPhpInt | phpcassa.php:428-429 | the integer `>>` reads from a name; IntStringRoundTrip states that it reads the decimal string of an integer back as that integer |
| Php.DecimalDigitsValue | phpcassa.php:428-429 | the decimal form of n consists of digits that read back as n |
| Php.IntStringRoundTrip | phpcassa.php:428-429 | every 64-bit integer, the minimum included, is read back exactly from its decimal string |
| Php.Put | phpcassa.php:315 | after `$a[$k] = $v`, k finds v; a present key keeps the length; a new key is appended at the end |
| Php.PutOther | phpcassa.php:315 | storing under k changes neither what any other key finds nor whether it is present |
| Php.PutWellFormed | phpcassa.php:315 | storing under a key keeps an array free of duplicate and null keys |
| LongCodec.Pack | phpcassa.php:426-431 | pack_longtype gives exactly 8 bytes; the first byte has its top bit set iff x is negative; unpacking the result gives x back |
| LongCodec.PackDigits | phpcassa.php:426-431 | the eight shifted-and-masked bytes, weighted most significant first with the top one signed, add up to x |
| LongCodec.Unpack | phpcassa.php:433-436 | unpack_longtype, signed; Pack's ensures and PackUnpack make it the inverse of pack_longtype on 64-bit integers and on 8-byte strings |
| LongCodec.PackUnpack | phpcassa.php:426-436 | every 8-byte string is the packing of the integer it unpacks to |
| LongCodec.PackOf255 | phpcassa.php:426-436 | 255 packs to seven zero bytes and 0xff, and unpacks back |
| NameCodec.FlagSelectsType | phpcassa.php:401 | the is_column flag matters only through the type it selects, in both directions |
| NameCodec.CodecShortCuts | phpcassa.php:397-423 | parsing off: both directions are the identity; a false name becomes null; a type other than LongType and the UUID types leaves a true name unchanged |
| NameCodec.ParseUnparse | phpcassa.php:397-423 | decoding an encoded name gives it back: with parsing off, for true names of pass-through types, for non-zero integers under LongType, and under the UUID types when the UUID conversions undo each other |
| NameCodec.UnparseParseLong | phpcassa.php:404-405 | under LongType, encoding a decoded 8-byte wire name gives it back unless it decodes to 0, which is encoded as null |
| NameCodec.Parse | phpcassa.php:397-409 | parse_column_name; its contract is stated by ParseUnparse (it undoes Unparse), CodecShortCuts (identity when off, null for false names, pass-through types) and FlagSelectsType |
| NameCodec.Unparse | phpcassa.php:411-423 | unparse_column_name; stated by ParseUnparse, UnparseParseLong, UnparseDecimalName, CodecShortCuts and FlagSelectsType |
| NameCodec.UnparseDecimalName | phpcassa.php:418-419 | under LongType a non-zero integer name and its decimal string are sent as the same 8 bytes |
| NameCodec.LongZeroIsLost | phpcassa.php:413 | under LongType the name 0 is encoded as null, while eight zero bytes decode to 0 |
| Encoder.ToColumnValue | phpcassa.php:390-394 | to_column_value never returns null: null becomes "" and every other value is unchanged |
| Encoder.EncodeColumns | phpcassa.php:375-388 | one Column per entry in array order, its name through the sub-column codec, its value through to_column_value, and timestamp t |
| Encoder.EncodeEntry | phpcassa.php:356-369 | one entry of array_to_supercolumns_or_columns; EncodeRowShape states that it sets exactly one field and stamps every record, DecodeEncodeEntry that it decodes back to its name and cell |
| Encoder.EncodeRow | phpcassa.php:351-373 | one entry per array entry, in array order |
| Encoder.WrapMutations | phpcassa.php:343-347 | one Mutation per entry, preserving length and order, each wrapping that entry |
| Encoder.EncodeRowShape | phpcassa.php:357-368 | each encoded entry sets exactly one field; the super-column field is set iff the value is an array; every Column and SuperColumn at both levels carries the one timestamp |
| Encoder.ArrayToColumns | phpcassa.php:375-388 | array_to_columns builds the Columns of the array, with a zero timestamp replaced by the clock reading |
| Encoder.ArrayToSupercolumnsOrColumns | phpcassa.php:351-373 | array_to_supercolumns_or_columns builds the encoded row with the effective timestamp |
| Encoder.ArrayToMutation | phpcassa.php:338-349 | array_to_mutation wraps exactly the entries array_to_supercolumns_or_columns builds, in order |
| Decoder.NameKey | phpcassa.php:312-315 | a decoded name used as an array key is always a valid key |
| Decoder.DecodeColumns | phpcassa.php:326-335 | columns_to_array yields a genuine array with no more entries than Columns |
| Decoder.DecodeColumnsSnoc | phpcassa.php:328-333 | one more Column is stored under its name decoded with the sub-column codec |
| Decoder.DecodeColumnsKeys | phpcassa.php:326-335 | the keys of the decoded array are exactly the decoded names of the Columns |
| Decoder.DecodeColumnsLastWins | phpcassa.php:332 | the value under a name is that of the last Column whose name decodes to it |
| Decoder.DecodeRow | phpcassa.php:308-324 | supercolumns_or_columns_to_array yields a genuine array with no more entries than the response |
| Decoder.DecodeRowSnoc | phpcassa.php:310-322 | a column entry stores its value and a super entry its decoded sub-columns under the decoded name; an entry with neither field contributes nothing |
| Decoder.DecodeRowKeys | phpcassa.php:308-324 | the keys of the decoded row are exactly the keys of the entries that set a field |
| Decoder.DecodeRowLastWins | phpcassa.php:315-320 | a later entry with the same decoded name overwrites an earlier one |
| Decoder.DecodeRows | phpcassa.php:297-306 | keyslices_to_array yields a genuine array with no more rows than key slices |
| Decoder.DecodeRowsInOrder | phpcassa.php:297-306 | with distinct keys, one row per response entry, in response order, each decoded with the column codec |
| Decoder.KeySlicesInOrder | phpcassa.php:297-306 | keyslices_to_array adds one key per key slice, in response order, when the keys differ |
| Decoder.ColumnsToArray | phpcassa.php:326-335 | columns_to_array's loop computes the decoded sub-column array |
| Decoder.SupercolumnsOrColumnsToArray | phpcassa.php:308-324 | supercolumns_or_columns_to_array's loop computes the decoded row |
| Decoder.KeyslicesToArray | phpcassa.php:297-306 | keyslices_to_array's loop computes the decoded rows of the key slices |
| RoundTrip.NameKeyRoundTrip | phpcassa.php:397-423 | an encoded name that round-trips decodes, as an array key, to the original name |
| RoundTrip.LastKeyIsNew | phpcassa.php:355 | a genuine array is its genuine front plus a last entry whose key the front lacks |
| RoundTrip.DecodeEncodeColumns | phpcassa.php:326-335 | decoding the Columns array_to_columns builds returns the original sub-column array |
| RoundTrip.DecodeEncodeEntry | phpcassa.php:308-373 | one encoded entry decodes to the name and the cell it was built from |
| RoundTrip.DecodeEncodeRow | phpcassa.php:308-373 | decoding the entries array_to_supercolumns_or_columns builds returns the original row, for every row the codec can carry |
| RoundTrip.PassThroughRoundTrip | phpcassa.php:308-373 | with pass-through types, every genuine row with true names, non-null values and non-empty sub-arrays round-trips |
| RoundTrip.LongTypeRoundTrip | phpcassa.php:308-373 | with LongType column names, rows keyed by non-zero integers round-trip |
| Accessor.MultigetToArray | phpcassa.php:193-195 | multiget's loop stores every row key with its row decoded with the column codec |
| Accessor.MultigetKeepsRows | phpcassa.php:189-196 | multiget keeps every row of a genuine response, in response order |
| Accessor.DecodeColumnsIgnoresColumnType | phpcassa.php:329 | decoding sub-columns never reads the column type |
| Accessor.SubcolumnDecodeIsColumnDecode | phpcassa.php:168-172 | decoding with the sub-column codec is decoding with the column codec of a family whose column type is the sub-column type |
| Accessor.GetSuperColumnUsesSubcolumnCodec | phpcassa.php:168-172 | get with a true super column decodes its answer with the sub-column codec |
| Accessor.SliceBoundMeaning | phpcassa.php:160-161 | a false slice bound is sent as ""; a true one is sent encoded and decodes back when it round-trips |
| Accessor.GetAndMultigetSlicesAgree | phpcassa.php:157-161 | get, with the default order and count, and multiget send the same slice range |
| Accessor.GetAndGetRangeBoundsDiffer | phpcassa.php:216-217 | get_range encodes a bound with the column codec where get uses the sub-column codec: an integer bound of a LongType family is packed only by get_range |
| Accessor.SameTypesSameBounds | phpcassa.php:160-161 | when both name types are equal, get's and get_range's bound encodings agree |
| Accessor.InsertSharesTimestamp | phpcassa.php:232-236 | every Column and SuperColumn of one insert carries the call's single clock reading, and the mutations decode back to the inserted row when it can round-trip |
| Accessor.RemoveWholeRow | phpcassa.php:244-253 | remove without a column name sets neither path field |
| Accessor.RemoveTargetsName | phpcassa.php:249-253 | remove names a super column with the column codec iff the family is super, otherwise a column with the sub-column codec, and each decodes back to the name |
| Accessor.GetRequest | phpcassa.php:153-161 | the parent and slice range get sends; stated by GetParentNamesSuperColumn, SliceBoundMeaning, GetAndMultigetSlicesAgree and GetAndGetRangeBoundsDiffer |
| Accessor.GetResult | phpcassa.php:168-172 | how get decodes its answer; stated by GetSuperColumnUsesSubcolumnCodec |
| Accessor.MultigetRequest | phpcassa.php:176-184 | the parent and slice range multiget sends; stated by GetAndMultigetSlicesAgree |
| Accessor.GetRangeRequest | phpcassa.php:211-224 | the parent, slice range and key range get_range sends; stated by GetAndGetRangeBoundsDiffer and SameTypesSameBounds |
| Accessor.InsertRequest | phpcassa.php:232-236 | the mutation map insert sends; stated by InsertSharesTimestamp |
| Accessor.RemovePath | phpcassa.php:247-253 | the column path remove sends; stated by RemoveWholeRow and RemoveTargetsName |
| Accessor.GetParentNamesSuperColumn | phpcassa.php:155 | get's column parent names the super column the column codec decodes back to the name asked for |
| Lists.WithKeyMeaning | phpcassa.php:267 | after `$_value[$key_name] = $_key` the key is found under key_name, other names are unaffected, and the array stays genuine |
| Lists.MultigetListOf | phpcassa.php:289-292 | one element per row, in order, each row with its row key stored under key_name |
| Lists.RangeListOf | phpcassa.php:277-282 | get_range_list never yields more elements than rows |
| Lists.NonEmptyRows | phpcassa.php:278 | the kept rows are exactly the non-empty ones |
| Lists.RangeListIsMultigetOfNonEmpty | phpcassa.php:273-294 | get_range_list is multiget_list's flattening applied to the non-empty rows only, in order |
| Lists.RangeListKeepsNonEmpty | phpcassa.php:278 | with no empty row, get_range_list drops nothing |
| Lists.ListElementsCarryKey | phpcassa.php:277-292 | every element of either list finds its row key under key_name, and each get_range_list element comes from a non-empty row |
| Lists.MultigetList | phpcassa.php:286-294 | multiget_list's loop computes the flattened list |
| Lists.GetRangeList | phpcassa.php:273-284 | get_range_list's loop computes the flattened list without empty rows |
| Lists.FirstNonArray | phpcassa.php:266-267 | the position of the first cell that cannot take the key assignment: every cell before it is an array or null |
| Lists.ListOfCells | phpcassa.php:266-269 | get_list yields one element per cell, in order, each the cell's sub-columns with the super column's name under key_name |
| Lists.GetListOf | phpcassa.php:264-270 | get_list's result; GetList is proved to compute it, and FirstNonArray and ListOfCells state its error position and its elements |
| Lists.GetList | phpcassa.php:262-271 | get_list's loop returns all cells with their keys, or stops with an error at the first cell that is a non-null scalar |
| ConnectionPool.PermuteKeepsEntries | phpcassa.php:68 | shuffling keeps every connection, as often as it was there |
| ConnectionPool.PermuteKeepsClientsDistinct | phpcassa.php:68 | shuffling keeps every connection's client distinct |
| ConnectionPool.FirstUsable | phpcassa.php:69-83 | the first position from which a transport is open or opens; every earlier one is closed and fails to open |
| ConnectionPool.Pool.constructor | phpcassa.php:24-25 | the pool starts empty, with nothing open and no error |
| ConnectionPool.Pool.AddNode | phpcassa.php:27-59 | on success one closed connection is appended and TRUE returned; on a TException the list is unchanged, the error is recorded and FALSE returned |
| ConnectionPool.Pool.GetClient | phpcassa.php:62-86 | the list is permuted; the client of the first open-or-opening entry is returned and only its transport is opened; earlier entries stay closed and set last_error; with none, it throws |
| ConnectionPool.ShuffleThenAppend | phpcassa.php:48 | a shuffle followed by an append keeps exactly the old connections plus the added one; with GetClient's ensures (a permutation) and AddNode's (one append or nothing) this is why the pool only changes by permutation and appending |

## Left out

- The Thrift transports, the binary protocol and the client construction are not modelled (`TSocket`, `TFramedTransport`, `TBufferedTransport`, `CassandraClient`). A connection records only the settings add_node passes to them (`MakeEndpoint`) and a client identity.
- RemovePath: the clock reading remove passes to the remote call with the path is not part of the modelled request.
- The remote calls are not modelled: `get_slice`, `multiget_slice`, `get_range_slices`, `batch_mutate` and `remove`. Their responses are inputs to the decoders, and the requests are values (`GetRequest`, `MultigetRequest`, `GetRangeRequest`, `InsertRequest`, `RemovePath`).
- `get_count` is not modelled: it passes the remote count through with no logic of its own.
- The UUID library (`UUID::convert`, `UUID::generate`, `CassandraUtil::uuid1`) is not part of this model. The two conversions are function-valued fields of the codec, and round trips under the UUID types take their inverse as a hypothesis.
- `CassandraUtil::get_time` is not modelled. Its microtime string surgery and float division become an integer parameter `now`, read once per call.
- `shuffle`'s randomness is not modelled; the new order is a permutation parameter.
- Whether `open()` succeeds is an oracle parameter. The exception message texts and the text of `last_error` are left out; only whether `last_error` has been set is kept.
- The consistency levels, the keyspace and the constructor's field assignments only pass through, so they are not modelled.
- PHP's canonicalisation of numeric-string array keys is not modelled: `"5"` and `5` are distinct keys here.
- ToPhpInt reads an integer from a string the way PHP 5 does for `>>`: an optional sign and leading digits, saturating at 64 bits. It does not model leading whitespace, exponents or hexadecimal.
- PHP `empty($timestamp)` is modelled only for integer timestamps: a zero timestamp means "use the clock". A null timestamp is represented by 0.
- Lists.GetListOf: a cell that is a non-null scalar ends get_list with `NotAnArray`, while PHP does not stop the loop there: on an integer cell the key assignment only warns, on a non-empty string it overwrites offset 0, and an empty-string cell becomes an array as null does. Those outcomes are not modelled.
- Lists.MultigetList, Lists.GetRangeList, Lists.GetList: these take the already-decoded answer of `multiget`, `get_range` or `get` rather than issuing the call. The decoding is `Accessor.MultigetToArray`, `Decoder.KeyslicesToArray` and `Accessor.GetResult`.
