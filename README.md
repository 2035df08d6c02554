# Single-hop bucket timeouts and pool attributes

This project models two parts of a client library for a partitioned data grid.

**Per-bucket timeout bookkeeping** (`BucketTimeouts`, in `bucket_timeouts.dfy`).
Single-hop routing sends an operation straight to the server that owns the key's bucket.
When that bucket's primary times out, the client marks the bucket with the instant of the failure.
`BucketStatus` holds that mark, and zero means "not timed out".
`setTimeout` records the current instant, but only when no mark is already set.
`isTimedoutAndReset(millis)` answers true while the mark plus `millis * 1000` microseconds is still in the future.
Once that window has passed, it clears the mark and answers false.
`PRbuckets` is an array with one `BucketStatus` per bucket of a region, indexed by bucket id.

The model is imperative:
- `BucketStatus` is a class with a `lastTimeout` field.
- `PRBuckets` wraps an `array<BucketStatus>` of distinct objects.

Each method is proved against the pure functions `Probe` and `Mark`.
`Replay` runs a sequence of calls on one bucket, and the lemmas about whole histories are stated over it.
The wall clock is a `now` parameter, an integer number of microseconds.
The window is `(millis * 1000) mod 2^32`, because the source multiplies in 32-bit unsigned arithmetic.

**Pool configuration attributes** (`PoolConfig`, in `pool_attributes.dfy`).
`PoolAttributes` is a class with the source's fields.
- `addLocator` and `addServer` append `host + ":" + to_string(port)` to one of two endpoint lists.
- Each refuses with `IllegalArgumentException` once the other list is non-empty. The model returns this as a `Status` value.
- `compareVectorOfStrings` is a method with the source's nested loop and early exit, proved against the predicate `AllOccurIn`.
- `operator==` is the predicate `Equals`.

For each endpoint list, `Equals` checks equal length and one-way containment.
So it is reflexive and ignores order, but it is not symmetric when a list holds duplicates.
The lemmas prove reflexivity, order insensitivity, the asymmetric counterexample, and symmetry when the left-hand lists hold no duplicates.
`ParseDecimal` reads a rendered port back, and `SplitEndpoint` splits a whole `host:port` entry back into its host and port.

Three behaviours of the code are kept as written:
- Every bucket's status exists from construction, at zero, rather than being created on the first mark.
- "Not timed out" is the zero instant. A mark taken at instant zero is therefore lost (`MarkAtZeroIsLost`).
- The window wraps in 32 bits. For `millis = 2^29` the window is zero (`WindowWrapsToZero`).

## Model

| member | source | states |
|---|---|---|
| `BucketTimeouts.WindowMicros` | cppcache/src/ClientMetadataService.hpp:60 | the window is below 2^32 µs; it is exactly `1000 * millis` when that fits in 32 bits, and smaller otherwise (wrap-around) |
| `BucketTimeouts.Probe` | cppcache/src/ClientMetadataService.hpp:56-70 | a check answers true iff the bucket is marked and `now` is before mark + window; a true answer keeps the mark, a false one leaves the bucket unmarked |
| `BucketTimeouts.Mark` | cppcache/src/ClientMetadataService.hpp:72-76 | an existing mark is never overwritten; an unmarked bucket takes `now`; the result is unmarked only when the bucket was unmarked and `now` is zero |
| `BucketTimeouts.UnmarkedStaysClear` | cppcache/src/ClientMetadataService.hpp:55-58 | an unmarked bucket answers false to every check in any sequence of checks and stays unmarked |
| `BucketTimeouts.ExpiredMarkResetsForGood` | cppcache/src/ClientMetadataService.hpp:64-68 | once the window has elapsed, the check clears the mark and answers false, and every later check answers false until the bucket is marked again |
| `BucketTimeouts.MarkKeepsFirstInstant` | cppcache/src/ClientMetadataService.hpp:72-76 | further `setTimeout` calls on a marked bucket leave the first recorded instant untouched |
| `BucketTimeouts.TimedOutThroughoutWindow` | cppcache/src/ClientMetadataService.hpp:56-76 | a bucket marked at `t > 0` answers true to every check made inside its window, interleaved marks included, and keeps `t` as its mark |
| `BucketTimeouts.MarkThenCheckAtOnce` | cppcache/src/ClientMetadataService.hpp:56-76 | `setTimeout` at `t > 0` then a check at the same instant answers true and keeps `t` exactly when the 32-bit window is non-zero; otherwise it answers false and clears the mark |
| `BucketTimeouts.WindowWrapsToZero` | cppcache/src/ClientMetadataService.hpp:60 | with `millis = 2^29` the window wraps to zero, so a mark is cleared by a check at the very instant it was set |
| `BucketTimeouts.MarkAtZeroIsLost` | cppcache/src/ClientMetadataService.hpp:72-76 | a mark taken at instant zero cannot be told from no mark: the next check answers false |
| `BucketTimeouts.BucketStatus.constructor` | cppcache/src/ClientMetadataService.hpp:55 | a new status is unmarked |
| `BucketTimeouts.BucketStatus.IsTimedoutAndReset` | cppcache/src/ClientMetadataService.hpp:56-70 | the answer and the new mark are those of `Probe` on the old mark, so the properties proved about `Probe` and `Replay` hold of the method |
| `BucketTimeouts.BucketStatus.SetTimeout` | cppcache/src/ClientMetadataService.hpp:72-76 | records `now` only when unmarked, otherwise leaves the mark |
| `BucketTimeouts.PRBuckets.constructor` | cppcache/src/ClientMetadataService.hpp:84 | `nBuckets` fresh, distinct statuses, all unmarked |
| `BucketTimeouts.PRBuckets.IsBucketTimedOut` | cppcache/src/ClientMetadataService.hpp:87-89 | answers the check for bucket `bucketId`; only that bucket's mark may change, every other bucket keeps its mark |
| `BucketTimeouts.PRBuckets.SetBucketTimeout` | cppcache/src/ClientMetadataService.hpp:91 | marks bucket `bucketId` as `setTimeout` would; every other bucket keeps its mark |
| `PoolConfig.NatToDecimal` | cppcache/src/PoolAttributes.cpp:109 | the decimal numeral of a port's magnitude is non-empty, all digits, with a leading zero only for zero |
| `PoolConfig.IntToDecimal` | cppcache/src/PoolAttributes.cpp:109 | the rendered port is non-empty, has no ':', and starts with '-' exactly when the port is negative |
| `PoolConfig.DecimalRoundTrip` | cppcache/src/PoolAttributes.cpp:109 | parsing the rendered port gives back the port |
| `PoolConfig.Endpoint` | cppcache/src/PoolAttributes.cpp:104-118 | the `host:port` entry splits back at its last ':' into the host and the port, even for hosts that contain ':' |
| `PoolConfig.PoolAttributes.Equals` | cppcache/src/PoolAttributes.cpp:54-85 | every setting equal, equal endpoint-list sizes, and each entry of this object's lists occurs in the other's; reflexive, and never true for lists of different lengths |
| `PoolConfig.PoolAttributes.constructor` | cppcache/src/PoolAttributes.cpp:26-48 | every setting is its factory default, both endpoint lists are empty, the SNI proxy host is empty and its port is 0 |
| `PoolConfig.PoolAttributes.CopyOf` | cppcache/src/PoolAttributes.cpp:49-51 | the copy agrees with the source field by field |
| `PoolConfig.PoolAttributes.Clone` | cppcache/src/PoolAttributes.cpp:49-51 | a fresh object, field-for-field identical, that compares equal to the original in both directions |
| `PoolConfig.PoolAttributes.CompareVectorOfStrings` | cppcache/src/PoolAttributes.cpp:87-102 | answers true iff every entry of the first list occurs somewhere in the second (true for an empty first list) |
| `PoolConfig.PoolAttributes.AddLocator` | cppcache/src/PoolAttributes.cpp:104-110 | with no servers it appends exactly `host:port` after the existing locators; with servers it fails with `IllegalArgumentException` and changes nothing; only the locator list can change; "not both lists non-empty" is preserved |
| `PoolConfig.PoolAttributes.AddServer` | cppcache/src/PoolAttributes.cpp:112-118 | the mirror image of `AddLocator` for the server list |
| `PoolConfig.ListsMatchIgnoresOrder` | cppcache/src/PoolAttributes.cpp:75-78 | two lists that are permutations of each other match in both directions |
| `PoolConfig.ListsMatchNotSymmetric` | cppcache/src/PoolAttributes.cpp:75-78 | `[a, a]` matches `[a, b]`, but `[a, b]` does not match `[a, a]` |
| `PoolConfig.ListsMatchSymmetricWithoutDuplicates` | cppcache/src/PoolAttributes.cpp:75-78 | if the first list has no duplicates, a match also holds the other way round |
| `PoolConfig.EqualsIgnoresOrder` | cppcache/src/PoolAttributes.cpp:54-85 | attribute sets that differ only in the order of their endpoint lists are equal, both ways |
| `PoolConfig.EqualsNotSymmetric` | cppcache/src/PoolAttributes.cpp:54-85 | with locators `[a, a]` against `[a, b]`, `p == q` holds but `q == p` does not |
| `PoolConfig.EqualsSymmetricWithoutDuplicates` | cppcache/src/PoolAttributes.cpp:54-85 | when `p`'s endpoint lists hold no duplicates, `p == q` implies `q == p` |

## Left out

- The lifecycle, refresh-queue and locking members of `ClientMetadataService` (`start`, `stop`, `svc`, the semaphore, `m_run`, the read-write locks; cppcache/src/ClientMetadataService.hpp:116-127, 220-231) are not modelled, because they are concurrency machinery.
- The routing and grouping methods of `ClientMetadataService` (cppcache/src/ClientMetadataService.hpp:129-204) are not modelled, because only their declarations are available: their bodies are not part of this model.
- Thread safety of the bucket checks is not modelled, because the model is sequential. The source declares a read-write lock for the bucket statuses (cppcache/src/ClientMetadataService.hpp:229), but its use is not visible.
- `BucketTimeouts.PRBuckets.IsBucketTimedOut` and `BucketTimeouts.PRBuckets.SetBucketTimeout` require `0 <= bucketId < nBuckets`. The source has no bounds check, so any other id is undefined behaviour.
- `BucketTimeouts.PRBuckets.constructor` takes `nBuckets` as a natural number. With a negative `int32_t` the source's array allocation would throw.
- The `PRbuckets` destructor is not modelled, because memory is not managed explicitly in Dafny.
- The clock is the `now` parameter. `ACE_Time_Value`'s seconds and microseconds pair is one count of microseconds.
- The model assumes that `suseconds_t` is wide enough for a `uint32_t` value, as on LP64 platforms. Where it is 32 bits wide, products of 2^31 or more would become negative.
- The `PoolFactory::DEFAULT_*` values are unspecified constants, because their definitions are not part of this model.
- The field types come from the constructor and `operator==`. The header is not part of this model. `std::chrono` durations are integers (milliseconds), and strings are `seq<char>`.
- `PoolAttributes`' getters and setters in the header are not modelled. Only the members defined in PoolAttributes.cpp are.
- `clone` returns a fresh object (`Clone`) rather than a `shared_ptr`.
- Exceptions are the returned `Status` value. The exception object and its unwinding are not modelled.
- TLS and TCP transport, PKCS authentication, the .NET `PoolFactory` wrapper, the integration tests and the documentation redirects are not part of this model. They are foreign calls, I/O or live-cluster tests.
