# Kleer client SDK: a Dafny model

Kleer is a small C# client for an XML-over-HTTP accounting API. This project models its two
core files:

- `KleerXmlSerializer` (`xml_serializer.dfy`, module `XmlSerialization`). It caches one
  `XmlSerializer` per root type. It also caches, per assembly, the `XmlAttributeOverrides`
  that give every included `...Redefinition` type the schema name `..._redef`.
- `KleerClient` (`kleer_client.dfy`, module `Client`). It validates the token and normalises
  the base URL. It sets up the default `Accept` and `X-Token` headers and builds requests.
  It sends a request raw, or typed, where a non-success status becomes an error.

`text.dfy` (module `Text`) holds the .NET string operations the code relies on:
`EndsWith` with ordinal comparison, `Replace`, `TrimEnd` and `char.IsWhiteSpace`.
`errors.dfy` (module `Errors`) holds `Option` (null), `Result` and the exceptions as values.

Modelling choices:

- Reflection becomes data. An `Assembly` is the sequence of its `TypeDecl`s. Each type lists
  the targets of the `XmlInclude` attributes declared directly on it. A `TypeRef` is a type's
  identity: its assembly, full name and short name.
- The static class `KleerXmlSerializer` becomes one object. Its two dictionaries are `map`
  fields, and `assemblies` stands for what `typeof(T).Assembly` / `GetTypes` would report.
  Two ghost logs record every override build and every serializer construction. The
  invariant `Valid()` says each assembly and each type appears in its log at most once.
- `XmlSerializer` is a class. Its only state is the root type and the override set it was
  built with, so "the cache returns the same serializer" is object identity.
- Reading and writing XML are the library's job. They appear as function parameters
  (`read`, `write`). `write` receives the fixed writer settings: no declaration, no BOM,
  no indentation, and the empty namespace mapped to "".
- The transport is a function parameter. It maps the message put on the wire to the
  response. The message on the wire is the request's headers plus every default header
  the request does not set itself, which is `HttpClient`'s merge rule. As in `HttpClient`,
  the merged headers are written back into the caller's request.
- `new KleerClient(...)` can throw, so it is modelled as `KleerClient.New`, which returns a
  `Result`.
- C# overloads get distinct names. `BuildBinaryRequest(Stream)` is `BuildStreamRequest` and
  `SendAsync<T>` is `SendAsyncTyped`.

The type is selected by its `Redefinition` suffix. The renaming, however, calls
`String.Replace`, which replaces every occurrence of `Redefinition`, not only that suffix.
The model follows the code: `RenameEveryOccurrence` shows both occurrences being replaced,
and `RenameRemovesEveryMarker` proves that no `Redefinition` is left.

## Model

| member | source | states |
|---|---|---|
| `XmlSerialization.BuildOverrides` | Kleer/KleerXmlSerializer.cs:16-39 | The nested loops over types and includes, with their `processed` set, return exactly `OverridesOf(asm)`. No type is ever passed twice to `XmlAttributeOverrides.Add`, which would throw. |
| `XmlSerialization.AddOverride` | Kleer/KleerXmlSerializer.cs:34 | `XmlAttributeOverrides.Add` registers one new type with its schema name and keeps every other entry. It demands that the type is not registered yet. |
| `XmlSerialization.IncludeStep` | Kleer/KleerXmlSerializer.cs:26-34 | One include adds an override only when its target ends with "Redefinition" and has not been processed. Any other target leaves the set unchanged. |
| `XmlSerialization.IncludedByMembers` | Kleer/KleerXmlSerializer.cs:21-24 | A type is among the included types exactly when some type of the assembly lists it among its own includes. |
| `XmlSerialization.OverridesSelection` | Kleer/KleerXmlSerializer.cs:21-35 | A type has an override if and only if some type of the assembly directly includes it and its name ends with "Redefinition" (ordinal). Its value is `Name.Replace("Redefinition", "_redef")`. |
| `XmlSerialization.NotIncludedNotRenamed` | Kleer/KleerXmlSerializer.cs:21-23 | A type that no type of the assembly includes gets no override, whatever its name. |
| `XmlSerialization.TypeOrderIrrelevant` | Kleer/KleerXmlSerializer.cs:21 | Two enumerations of the same types in any order give the same override set. |
| `XmlSerialization.IncludeOrderIrrelevant` | Kleer/KleerXmlSerializer.cs:23-24 | A type's includes can be reordered or repeated without changing the override set. |
| `XmlSerialization.RenameSuffix` | Kleer/KleerXmlSerializer.cs:32 | A name whose only "Redefinition" is its suffix loses that suffix and gains "_redef". |
| `XmlSerialization.RenameWidget` | Kleer/KleerXmlSerializer.cs:27-32 | `WidgetRedefinition` passes the suffix test and is renamed `Widget_redef`. |
| `XmlSerialization.RenameEveryOccurrence` | Kleer/KleerXmlSerializer.cs:32 | A name that starts and ends with "Redefinition" has both occurrences replaced, not only the suffix. |
| `XmlSerialization.RenameRemovesEveryMarker` | Kleer/KleerXmlSerializer.cs:32 | No schema name produced by the rename contains "Redefinition" anywhere. |
| `XmlSerialization.SchemaNameCollides` | Kleer/KleerXmlSerializer.cs:27-34 | Two distinct types both named `WidgetRedefinition`, included by one type, both get overrides, and both are named `Widget_redef`. The rename is not injective. |
| `Text.EndsWith` | Kleer/KleerXmlSerializer.cs:27 | An ordinal `EndsWith` holds exactly when the string is some string followed by the suffix. |
| `Text.Replace` | Kleer/KleerXmlSerializer.cs:32 | `String.Replace` leaves a string in which the pattern occurs nowhere unchanged. Its recursion replaces every non-overlapping occurrence, left to right. |
| `XmlSerialization.KleerXmlSerializer.constructor` | Kleer/KleerXmlSerializer.cs:12-14 | Both caches start empty, and the cache invariant holds. |
| `XmlSerialization.KleerXmlSerializer.OverridesFor` | Kleer/KleerXmlSerializer.cs:46 | Get-or-add on the overrides cache. A cached set is returned unchanged. Otherwise `BuildOverrides` runs once, its result is stored and the build is logged. |
| `XmlSerialization.KleerXmlSerializer.Create` | Kleer/KleerXmlSerializer.cs:41-49 | Get-or-add on the serializer cache. Afterwards the cache holds `T`. An existing entry is returned and nothing changes. Otherwise a fresh serializer bound to `T` and its assembly's overrides is stored. No other key changes, and each assembly and each type is built at most once. The serializer's construction is taken to succeed (see Left out). |
| `XmlSerialization.SharedOverrides` | Kleer/KleerXmlSerializer.cs:45-47 | All cached serializers of types from one assembly are bound to the same override set, the one `BuildOverrides` computes. |
| `XmlSerialization.KleerXmlSerializer.Deserialize` | Kleer/KleerXmlSerializer.cs:51-56 | Fetches or builds the serializer for `T`. A null text is then refused by the reader with `ArgumentNullException`. Otherwise the result is whatever the library reader gives. |
| `XmlSerialization.KleerXmlSerializer.Serialize` | Kleer/KleerXmlSerializer.cs:58-79 | A null value fails with `ArgumentNullException("obj")` and leaves both caches untouched. Otherwise the value is written by the cached serializer for `T` with the fixed writer settings. |
| `Text.TrimEnd` | Kleer/KleerClient.cs:17 | `TrimEnd('/')` returns the prefix of the input that does not end in '/' and is followed only by '/'. |
| `Client.NormalizeBaseUrl` | Kleer/KleerClient.cs:17 | The base address ends in exactly one '/'. Before it stands the base URL with its trailing '/' characters removed, and nothing else is removed. |
| `Client.NormalizeIdempotent` | Kleer/KleerClient.cs:17 | Normalising a normalised base address changes nothing. |
| `Client.NormalizeIgnoresTrailingSlash` | Kleer/KleerClient.cs:17 | A URL and the same URL with one more trailing '/' give the same base address. |
| `Client.NormalizeExample` | Kleer/KleerClient.cs:17 | `https://x.test/v1`, `.../v1/` and `.../v1//` all give `https://x.test/v1/`. |
| `Text.IsWhiteSpace` | Kleer/KleerClient.cs:12 | The space and U+0009 to U+000D are white space, and no visible ASCII character is. |
| `Text.IsNullOrWhiteSpace` | Kleer/KleerClient.cs:12 | A value is null or white space exactly when it is null or every character in it is white space. The empty string counts. |
| `Client.CheckToken` | Kleer/KleerClient.cs:12-13 | A token is accepted if and only if it is non-null and has a non-white-space character. Otherwise the result is `ArgumentException("API token is required", "token")`. |
| `Client.TokenExamples` | Kleer/KleerClient.cs:12-13 | Null, "" and "   " are refused, and "abc" is accepted. |
| `Client.KleerClient.New` | Kleer/KleerClient.cs:10-23 | A bad token fails before anything is created. A null base URL fails on `TrimEnd`. Otherwise a fresh client results, with the normalised base address and with default headers exactly `Accept: application/xml` and `X-Token: <token>` verbatim. |
| `Client.HttpClient.ClearHeader` | Kleer/KleerClient.cs:20 | `Accept.Clear()` removes every default value of that header. |
| `Client.HttpClient.AddHeader` | Kleer/KleerClient.cs:21-22 | Adding a default header appends one value to that header and leaves the others as they were. |
| `Client.WithValue` | Kleer/KleerClient.cs:31 | `Headers.Add` appends the value to the named header and leaves every other header as it was. |
| `Client.KleerClient.BuildRequest` | Kleer/KleerClient.cs:28-33 | The result is a fresh request with the given method and endpoint, no content, and headers exactly `Accept: application/xml`. It takes no client. |
| `Client.KleerClient.BuildXmlRequest` | Kleer/KleerClient.cs:38-44 | A null payload fails with `ArgumentNullException` and no cache changes. Otherwise the request also carries the serialised XML as text content with Content-Type `application/xml`. |
| `Client.KleerClient.BuildBinaryRequest` | Kleer/KleerClient.cs:49-59 | The byte content has Content-Type `application/octet-stream`, and the headers are exactly `Accept: application/xml`. |
| `Client.KleerClient.BuildStreamRequest` | Kleer/KleerClient.cs:64-74 | The stream content has Content-Type `application/octet-stream`, and the headers are exactly `Accept: application/xml`. |
| `Client.HttpClient.Prepare` | Kleer/KleerClient.cs:82 | The message on the wire carries the request's own headers, plus each default header whose name the request does not set. |
| `Client.SentHeaders` | Kleer/KleerClient.cs:20-22 | Every request a valid client sends carries `X-Token` equal to the token, unless the request sets its own `X-Token`, whose value then wins. It also carries `Accept: application/xml` unless the request set its own Accept. |
| `Client.KleerClient.SendAsync` | Kleer/KleerClient.cs:80-83 | The default headers are copied into the caller's request, which keeps its content. The raw send returns the transport's response for that message, whatever its status. Preparing the updated request again gives the same message. |
| `Client.IsSuccessStatusCode` | Kleer/KleerClient.cs:92 | A status counts as success exactly when it is in the 2xx class. |
| `Client.StatusOutcome` | Kleer/KleerClient.cs:92-100 | A response counts as success if and only if its status is 2xx. A failure is `HttpError(status, body)`, and a success passes the body on unchanged. |
| `Client.ServerErrorSurfaces` | Kleer/KleerClient.cs:92-96 | Status 500 with body "oops" fails with `HttpError(500, "oops")`. |
| `Client.KleerClient.SendAsyncTyped` | Kleer/KleerClient.cs:88-101 | The default headers are copied into the caller's request, which keeps its content. A non-success status fails with its status and body, and the serializer cache is untouched. Only a success is deserialised, by the cached serializer for `T`. |
| `Client.KleerClient.SerializeToXml` | Kleer/KleerClient.cs:109-115 | A null value fails with `ArgumentNullException("obj")` before any cache is touched. Otherwise the result is `KleerXmlSerializer.Serialize`'s. |

## Left out

- XML reading and writing are library calls and appear as parameters, so no round trip of serialise and deserialise is stated. Parse errors are whatever `read` returns. Exceptions thrown by the XML writer (for example, for a runtime type the serializer does not know) are not modelled: `write` always yields a string.
- The HTTP transport, `async`/`await`, `HttpClient`'s own checks on a request (for example, one already sent) and `Dispose` are left out: they are network I/O and resource lifetime.
- `Uri` parsing is left out. The base address and the endpoint are plain strings, so `UriFormatException` and the resolution of a relative endpoint against the base address are not modelled.
- `ConcurrentDictionary` thread safety is left out, and so is the race in which a factory runs twice and one result is discarded. The caches are sequential maps.
- Exception messages are not modelled, except the token's `ArgumentException`. An `HttpRequestException` is the pair (status, body), not its formatted text.
- The library's own null checks on arguments the core passes through are not modelled: a null `HttpMethod`, byte array or stream. Those arguments are non-null values here.
- `HttpHeaders.Add`'s validation of header values is not modelled, so a token containing a line break does not fail. Header names are compared exactly rather than case-insensitively.
- `IsWhiteSpace` follows .NET's documented white-space list. Changes to that list in later Unicode versions are not followed.
- `Create`: the model's serializer construction never fails. `new XmlSerializer(t, overrides)` throws when two overridden types share a schema name in one namespace and both are reachable from `T`, as the pair in `SchemaNameCollides` does. `GetOrAdd` then stores nothing for `T`, while the assembly's entry in the overrides cache stays. The model always stores a serializer for `T`.
- `SharedOverrides` states that serializers of one assembly hold equal override sets. It does not state that they share one `XmlAttributeOverrides` object.
