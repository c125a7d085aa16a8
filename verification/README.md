# Home Assistant MQTT notifier — a Dafny model

This project models the core of the Home Assistant notifier of an image-update
watcher (`internal/notif/homeassistant/client.go`). When an update is found,
the notifier uses MQTT to announce the image to Home Assistant. It derives a
repository name, a display name and a sanitised unique id from the image
reference, and builds three topics from them: availability, discovery
(`…/config`) and state. It connects its MQTT client once, on first use, and
then publishes "online". On every call it publishes a discovery message and
then a state message with the installed and latest versions, which are the
last eight characters of the digests.

The model has four modules:

- `Segments`: Go's `strings.Split` and its inverse `strings.Join` with a
  one-character separator, plus `Head` and `Last`, the first and last parts.
- `Naming`: the pure derivations.
  - `Last8` is `getLast8Chars`.
  - `RepoName`, `DisplayName` and `Sanitize` derive the names.
  - `TopicsFor` builds the three topics.
  - `StateFor` builds the state message.
  - `QosByte` is Go's `byte(QoS)`.
- `Announcer`: the control flow of `Send`.
  - The MQTT transport is an oracle. `Replies` gives the outcome of the connect
    and of each publish for one call.
  - Resolving a credential is an input, `Secret`, that is either `Resolved` or
    `Unresolved`.
  - `Handle` is the notifier's `mqttClient` field, either `Nil` or `Created`. `Created`
    means the client object exists, not that it is connected.
  - Every operation a call attempts is recorded in order as an `Event` in a
    trace.
  - `Execute` is an independent fail-fast reference semantics. `Plan` lists the
    operations one call should attempt.
  - `Run` threads the handle through a series of calls.
- `Scenarios`: worked examples on concrete image references and digests, and
  the general facts behind them.

Strings are `seq<char>`. The source slices Go strings by byte and the
sanitising regular expression works on runes. Both agree with the model for
ASCII image references and digests.

One might expect connect and "online" to be skipped only once the client is
connected. The code stores the handle before it tries to connect, so a failed
connect also leaves it set. The next call then skips connect and "online" and
publishes on an unconnected client, whatever the broker replies. The model
follows the code: see `Announcer.FailedConnectKeepsHandle` and
`Announcer.FailedConnectNeverRetried`.

Because the tag is split off at the first `:` before the `@` is considered, an
image on a registry with a port (`localhost:5000/app:1.0`) gets the repository
name `localhost`. Every repository on that registry then shares one id and one
set of topics. The model keeps this behaviour and states it in
`Scenarios.RegistryPortCollapses`.

## Model

| member | source | states |
|---|---|---|
| Segments.Split | internal/notif/homeassistant/client.go:60-62 | splitting on a character yields one more part than there are separators, no part contains the separator, and joining the parts with it gives the input back |
| Segments.SplitJoin | internal/notif/homeassistant/client.go:60-62 | splitting the join of separator-free parts recovers exactly those parts |
| Segments.HeadUnique | internal/notif/homeassistant/client.go:60 | the first part of a split is the only prefix that is separator-free and is followed by a separator or the end of the string |
| Segments.LastUnique | internal/notif/homeassistant/client.go:61-62 | the last part of a split is the only suffix that is separator-free and is preceded by a separator or the start of the string |
| Naming.Last8 | internal/notif/homeassistant/client.go:38-43 | the short digest is a suffix of the digest whose length is the smaller of 8 and the digest's length |
| Naming.Last8Short | internal/notif/homeassistant/client.go:38-43 | a digest shorter than eight characters is returned unchanged |
| Naming.Last8Idempotent | internal/notif/homeassistant/client.go:38-43 | shortening a short digest again changes nothing |
| Naming.RepoName | internal/notif/homeassistant/client.go:60 | the repository name is a prefix of the image reference with no `:` and no `@`, followed in the reference by `:`, `@` or nothing |
| Naming.RepoNameIsCutAtFirstStop | internal/notif/homeassistant/client.go:60 | any prefix with those properties is the repository name, so it is the reference cut at its first `:` or `@` |
| Naming.DisplayName | internal/notif/homeassistant/client.go:61-62 | the display name is a slash-free suffix of the repository name, preceded by `/` when shorter, and is the whole name when the name has no `/` |
| Naming.Sanitize | internal/notif/homeassistant/client.go:63-64 | sanitising keeps the length; every output character is in `[A-Za-z0-9_-]`; characters in that set are kept and all others become `-` |
| Naming.SanitizeFixesExactlyIds | internal/notif/homeassistant/client.go:63-64 | sanitising leaves a string unchanged exactly when it is already made of id characters |
| Naming.SanitizeIdempotent | internal/notif/homeassistant/client.go:63-64 | sanitising twice equals sanitising once |
| Naming.SanitizeAppend | internal/notif/homeassistant/client.go:63-64 | sanitising works character by character, so it distributes over concatenation |
| Naming.IdHasNoSlash | internal/notif/homeassistant/client.go:63-69 | a sanitised id contains no `/`, so it is a single topic segment |
| Naming.TopicsFor | internal/notif/homeassistant/client.go:67-69 | the topics are the `/`-joins of prefix, component and node with `availability`, with id and `config`, and with id and `state` |
| Naming.TopicsParse | internal/notif/homeassistant/client.go:67-69 | with slash-free configured segments, each topic splits on `/` back into exactly the segments it was built from |
| Naming.TopicsShareRoot | internal/notif/homeassistant/client.go:67-69 | discovery and state topics share the prefix `prefix/component/node/id/` and differ only in the last segment; availability is `prefix/component/node/availability` |
| Naming.TopicsDistinct | internal/notif/homeassistant/client.go:67-69 | the three topics of one image are pairwise different for any configuration |
| Naming.SameTopicIffSameId | internal/notif/homeassistant/client.go:68-69 | two images share a discovery topic, and likewise a state topic, if and only if their sanitised ids are equal |
| Naming.StateFor | internal/notif/homeassistant/client.go:112-118 | the latest version is the short new digest; the installed version is the short previous digest, or the latest version when there is no previous digest |
| Naming.NoUpdateShownIff | internal/notif/homeassistant/client.go:112-118 | installed equals latest if and only if the previous digest is empty or both digests end in the same eight characters |
| Naming.StateVersionsAreShortSuffixes | internal/notif/homeassistant/client.go:112-118 | both reported versions are at most eight characters long and are suffixes of their digests |
| Naming.QosByte | internal/notif/homeassistant/client.go:72 | the QoS byte lies in 0..255, is congruent to the configured QoS modulo 256, and equals the QoS when it already fits |
| Announcer.Deliver | internal/notif/homeassistant/client.go:76-131 | an existing client is kept and gets neither connect nor "online"; a nil handle becomes the new client before the connect, which comes first in the trace; there is no connect after the first event; a successful call ends with discovery then state |
| Announcer.DeliverFollowsPlan | internal/notif/homeassistant/client.go:76-131 | the transport half attempts exactly the operations of its plan under the fail-fast reference semantics and returns the error that semantics reports |
| Announcer.Send | internal/notif/homeassistant/client.go:46-131 | a credential failure returns its error with no operation attempted and the handle unchanged; a created handle is never replaced, reconnected or re-announced "online"; a nil handle becomes created exactly when both credentials resolve, with a retained "offline" will, and the connect is then the first event |
| Announcer.SendFollowsPlan | internal/notif/homeassistant/client.go:76-131 | once the credentials resolve, a call's trace and error are what fail-fast execution of its plan reports |
| Announcer.ExecuteIsFailFast | internal/notif/homeassistant/client.go:79-128 | the reference semantics attempts a prefix of the steps, all but the last attempted succeeded, a failure is the last attempted step's, and success means every step succeeded |
| Announcer.SendStopsAtFirstFailure | internal/notif/homeassistant/client.go:79-128 | abort on error: a call stops at its first failing operation and returns that error, nothing later is attempted, and it succeeds only if every planned operation does |
| Announcer.FailedDiscoverySkipsState | internal/notif/homeassistant/client.go:107-128 | when the discovery publish fails, the call returns that error, discovery is its last event and the state message is never published |
| Announcer.FailedConnectKeepsHandle | internal/notif/homeassistant/client.go:76-81 | a failed first connect leaves the handle set, attempts nothing but the connect, and returns the connect error |
| Announcer.DiscoveryMatchesTopics | internal/notif/homeassistant/client.go:89-102 | the discovery message names the state topic the state is published on and the availability topic used for the will and "online"; its unique id is the sanitised repository name; its name is the display name, the repository name's last path segment |
| Announcer.DiscoveryIdIsTopicSegment | internal/notif/homeassistant/client.go:68-94 | the discovery topic splits into the configured segments, the message's unique id and `config` |
| Announcer.DeliverOnlineOnlyAfterConnect | internal/notif/homeassistant/client.go:76-131 | the transport half publishes "online" only as its second event and only when the handle was nil; discovery and state are never the "online" message |
| Announcer.OnlineOnlyAfterConnect | internal/notif/homeassistant/client.go:76-87 | a call publishes "online" only as its second event, right after the connect, and only when the handle was nil |
| Announcer.SendConnects | internal/notif/homeassistant/client.go:76-87 | one call attempts at most one connect and publishes "online" at most once, neither when the handle was already set, and either leaves the handle created |
| Announcer.Run | internal/notif/homeassistant/client.go:76-78 | a series of calls reports one error per call, and a handle that was already set is never replaced |
| Announcer.ConnectAtMostOnce | internal/notif/homeassistant/client.go:76-87 | over any series of calls and any transport replies, at most one connect is attempted and at most one "online" is published, neither if the client already existed, and the handle is created after either |
| Announcer.FirstCallSucceeds | internal/notif/homeassistant/client.go:76-131 | a fully successful first call connects, publishes "online", then discovery, then state, and leaves a created handle |
| Announcer.LaterCallSucceeds | internal/notif/homeassistant/client.go:89-131 | a successful call on an existing client publishes only discovery and then state |
| Announcer.TwoCallsConnectOnce | internal/notif/homeassistant/client.go:76-131 | two successful calls on a fresh notifier give one connect and one "online", then discovery and state for each call in call order |
| Announcer.FailedConnectNeverRetried | internal/notif/homeassistant/client.go:46-131 | after a failed connect and whatever the second call's credentials and replies, the session holds that one connect first, no other connect and no "online" at all; when the second call resolves and publishes successfully, its events are exactly discovery then state |
| Announcer.HandleKeepsFirstOptions | internal/notif/homeassistant/client.go:72-78 | the client keeps the broker, credentials and will of the call that created it, whatever later calls pass |
| Scenarios.RepoNameDropsSuffix | internal/notif/homeassistant/client.go:60 | a repository name followed by `:` or `@` and anything at all is recovered exactly |
| Scenarios.DisplayNameAfterLastSlash | internal/notif/homeassistant/client.go:61-62 | the display name of `path/name` is `name` when `name` has no `/` |
| Scenarios.SanitizeSeparator | internal/notif/homeassistant/client.go:63-64 | a separator outside the id alphabet becomes `-` and an id-shaped tail is kept |
| Scenarios.NginxExample | internal/notif/homeassistant/client.go:60-62 | `docker.io/library/nginx:latest` has repository name `docker.io/library/nginx` and display name `nginx` |
| Scenarios.NginxIdExample | internal/notif/homeassistant/client.go:63-64 | `docker.io/library/nginx` sanitises to `docker-io-library-nginx` |
| Scenarios.TagAndDigestExample | internal/notif/homeassistant/client.go:60 | `registry.io/ns/repo:1.2@sha256:abcd` has repository name `registry.io/ns/repo` |
| Scenarios.DigestOnlyExample | internal/notif/homeassistant/client.go:60-64 | `repo@sha256:abcd` has repository name `repo`, which is also its display name and its id |
| Scenarios.RegistryPortCollapses | internal/notif/homeassistant/client.go:60-64 | for any host without `:` or `@`, `host:port/path:tag` has the host itself as repository name, so its id is the host's sanitised form whatever the port, path and tag, and is the host itself when the host is made of id characters; every repository on that registry shares one id and one set of topics |
| Scenarios.FirstSightingExample | internal/notif/homeassistant/client.go:112-118 | a first sighting of `sha256:1111111122222222` reports `22222222` as both installed and latest |
| Scenarios.UpdateExample | internal/notif/homeassistant/client.go:112-118 | an update from `…bbbbbbbb` to `…22222222` reports `bbbbbbbb` installed and `22222222` latest |

## Left out

- The Paho MQTT client (`MQTT.NewClient`, `Connect`, `Publish`, tokens) is a foreign network library. The `Replies` oracle stands in for it. A token's `Wait()` is taken to return true, so `token.Error()` alone decides the outcome.
- `utl.GetSecret` reads a value or a file. It is not part of this model; its result is the `Secret` input.
- `entry.Image.String()` and `Digest.String()` belong to external types. Their results are taken as given strings in `Entry`.
- `json.Marshal` and its error returns (client.go:103-106 and 123-126) are left out. The payloads are the records `DiscoveryMessage` and `StateMessage`, not bytes. Marshalling a map of strings cannot fail, so those error branches are unreachable.
- The broker URL `scheme://host:%d` is not formatted. `ClientOptions` keeps scheme, host and port as separate fields.
- `New` and `Name` are a constructor and a constant and are not modelled.
- Concurrent calls racing on the shared `mqttClient` field are not modelled, because the source has no locking. Calls are sequential in `Run`.
- Naming.Last8: counts characters where Go counts bytes. The two agree on ASCII digests, which is what registries produce.
- Naming.Sanitize: maps characters where the regular expression maps runes. The two agree on ASCII image references.
