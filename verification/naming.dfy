/**
  The pure derivations the Home Assistant notifier performs on every update:
  the short digest, the repository name and display name of an image, the
  sanitised unique id, the three MQTT topics and the state message.
 */
module Naming {
  import opened Segments

  /** Number of trailing digest characters reported as a version. */
  const ShortDigestLength: nat := 8

  /** Character that replaces everything outside `[A-Za-z0-9_-]`. */
  const Replacement: char := '-'

  function Min(a: int, b: int): int
  {
    if a <= b then a else b
  }

  /**
    `getLast8Chars`: the last eight characters of a digest, or the whole
    digest when it is shorter.
   */
  function Last8(digest: string): (r: string)
    ensures |r| == Min(ShortDigestLength, |digest|)
    ensures r == digest[|digest| - |r|..]
  {
    if |digest| >= ShortDigestLength then digest[|digest| - ShortDigestLength..] else digest
  }

  /** A digest shorter than eight characters is reported unchanged. */
  lemma Last8Short(digest: string)
    requires |digest| < ShortDigestLength
    ensures Last8(digest) == digest
  {
    assert digest[0..] == digest;
  }

  /** Shortening is idempotent: a short digest is already its own last eight characters. */
  lemma Last8Idempotent(digest: string)
    ensures Last8(Last8(digest)) == Last8(digest)
  {
    var r := Last8(digest);
    assert r[|r| - |r|..] == r;
  }

  /**
    The repository name of an image reference: the text before the first
    `:`, and of that the text before the first `@`.
   */
  function RepoName(image: string): (r: string)
    ensures r <= image
    ensures ':' !in r && '@' !in r
    ensures |r| < |image| ==> image[|r|] == ':' || image[|r|] == '@'
  {
    var beforeTag := Head(image, ':');
    var r := Head(beforeTag, '@');
    assert r == beforeTag[..|r|];
    assert forall i :: 0 <= i < |r| ==> r[i] == beforeTag[i];
    r
  }

  /**
    The repository name is exactly the image reference cut at its first `:`
    or `@`, whichever comes first: the contract of `RepoName` pins it down.
   */
  lemma RepoNameIsCutAtFirstStop(image: string, q: string)
    requires q <= image && ':' !in q && '@' !in q
    requires |q| < |image| ==> image[|q|] == ':' || image[|q|] == '@'
    ensures q == RepoName(image)
  {
  }

  /** The display name: the last `/`-separated segment of the repository name. */
  function DisplayName(repo: string): (r: string)
    ensures |r| <= |repo| && repo[|repo| - |r|..] == r
    ensures '/' !in r
    ensures '/' !in repo ==> r == repo
    ensures |r| < |repo| ==> repo[|repo| - |r| - 1] == '/'
  {
    var r := Last(repo, '/');
    assert |r| < |repo| ==> repo[|repo| - |r| - 1] in repo;
    r
  }

  /** Characters kept by sanitisation: `[A-Za-z0-9_-]`. */
  predicate IsIdChar(c: char)
  {
    || 'a' <= c <= 'z'
    || 'A' <= c <= 'Z'
    || '0' <= c <= '9'
    || c == '_'
    || c == '-'
  }

  predicate IsId(s: string)
  {
    forall i :: 0 <= i < |s| ==> IsIdChar(s[i])
  }

  /** Replaces every character outside `[A-Za-z0-9_-]` with `-`, one for one. */
  function Sanitize(s: string): (r: string)
    ensures |r| == |s|
    ensures IsId(r)
    ensures forall i :: 0 <= i < |s| && IsIdChar(s[i]) ==> r[i] == s[i]
    ensures forall i :: 0 <= i < |s| && !IsIdChar(s[i]) ==> r[i] == Replacement
    decreases |s|
  {
    if s == [] then []
    else [if IsIdChar(s[0]) then s[0] else Replacement] + Sanitize(s[1..])
  }

  /** Sanitising an id changes nothing, and only ids are left unchanged. */
  lemma SanitizeFixesExactlyIds(s: string)
    ensures Sanitize(s) == s <==> IsId(s)
  {
    if IsId(s) {
      assert forall i :: 0 <= i < |s| ==> Sanitize(s)[i] == s[i];
    }
  }

  /** Sanitising twice gives the same result as sanitising once. */
  lemma SanitizeIdempotent(s: string)
    ensures Sanitize(Sanitize(s)) == Sanitize(s)
  {
    SanitizeFixesExactlyIds(Sanitize(s));
  }

  /** Sanitisation works character by character, so it distributes over concatenation. */
  lemma SanitizeAppend(a: string, b: string)
    ensures Sanitize(a + b) == Sanitize(a) + Sanitize(b)
  {
    var l := Sanitize(a + b);
    var r := Sanitize(a) + Sanitize(b);
    assert forall i :: 0 <= i < |a| ==> (a + b)[i] == a[i];
    assert forall i :: |a| <= i < |a| + |b| ==> (a + b)[i] == b[i - |a|];
    assert forall i :: 0 <= i < |l| ==> l[i] == r[i];
  }

  /** An id, and so every sanitised string, holds no `/`: it is a single topic segment. */
  lemma IdHasNoSlash(id: string)
    requires IsId(id)
    ensures '/' !in id
  {
  }

  /** The three topics of one image. */
  datatype Topics = Topics(availability: string, discovery: string, state: string)

  /** `prefix/component/node`, the topic root shared by all three topics. */
  function TopicRoot(prefix: string, component: string, node: string): string
  {
    prefix + "/" + component + "/" + node
  }

  /**
    The topics as formatted by the source: availability under the root,
    discovery and state under the root and the id.
   */
  function TopicsFor(prefix: string, component: string, node: string, id: string): (t: Topics)
    ensures t.availability == Join([prefix, component, node, "availability"], '/')
    ensures t.discovery == Join([prefix, component, node, id, "config"], '/')
    ensures t.state == Join([prefix, component, node, id, "state"], '/')
  {
    var root := TopicRoot(prefix, component, node);
    Join4(prefix, component, node, "availability");
    Join5(prefix, component, node, id, "config");
    Join5(prefix, component, node, id, "state");
    Topics(root + "/availability", root + "/" + id + "/config", root + "/" + id + "/state")
  }

  /** Four segments joined with `/`, as `"%s/%s/%s/%s"` formats them. */
  lemma Join4(a: string, b: string, c: string, d: string)
    ensures Join([a, b, c, d], '/') == a + "/" + b + "/" + c + "/" + d
  {
    assert [a, b, c, d][1..] == [b, c, d];
    assert [b, c, d][1..] == [c, d];
    assert [c, d][1..] == [d];
    assert Join([d], '/') == d;
    assert Join([c, d], '/') == c + "/" + d;
    assert Join([b, c, d], '/') == b + "/" + c + "/" + d;
  }

  /** Five segments joined with `/`, as `"%s/%s/%s/%s/%s"` formats them. */
  lemma Join5(a: string, b: string, c: string, d: string, e: string)
    ensures Join([a, b, c, d, e], '/') == a + "/" + b + "/" + c + "/" + d + "/" + e
  {
    assert [a, b, c, d, e][1..] == [b, c, d, e];
    Join4(b, c, d, e);
  }

  /**
    When the configured segments hold no `/`, every topic splits back into
    exactly the segments it was built from; the id segment of the discovery
    and state topics is the (sanitised) id.
   */
  lemma TopicsParse(prefix: string, component: string, node: string, id: string)
    requires '/' !in prefix && '/' !in component && '/' !in node
    requires IsId(id)
    ensures Split(TopicsFor(prefix, component, node, id).availability, '/')
            == [prefix, component, node, "availability"]
    ensures Split(TopicsFor(prefix, component, node, id).discovery, '/')
            == [prefix, component, node, id, "config"]
    ensures Split(TopicsFor(prefix, component, node, id).state, '/')
            == [prefix, component, node, id, "state"]
  {
    IdHasNoSlash(id);
    Segments4Parse(prefix, component, node, "availability");
    assert '/' !in "config" && '/' !in "state";
    Segments5Parse(prefix, component, node, id, "config");
    Segments5Parse(prefix, component, node, id, "state");
  }

  lemma Segments4Parse(a: string, b: string, c: string, d: string)
    requires '/' !in a && '/' !in b && '/' !in c && '/' !in d
    ensures Split(Join([a, b, c, d], '/'), '/') == [a, b, c, d]
  {
    var parts := [a, b, c, d];
    assert forall i :: 0 <= i < |parts| ==> '/' !in parts[i];
    SplitJoin(parts, '/');
  }

  lemma Segments5Parse(a: string, b: string, c: string, d: string, e: string)
    requires '/' !in a && '/' !in b && '/' !in c && '/' !in d && '/' !in e
    ensures Split(Join([a, b, c, d, e], '/'), '/') == [a, b, c, d, e]
  {
    var parts := [a, b, c, d, e];
    assert forall i :: 0 <= i < |parts| ==> '/' !in parts[i];
    SplitJoin(parts, '/');
  }

  /**
    The discovery and state topics share the prefix `root/id/` and differ
    only in the final segment; the availability topic is `root/availability`.
   */
  lemma TopicsShareRoot(prefix: string, component: string, node: string, id: string)
    ensures var t := TopicsFor(prefix, component, node, id);
            var under := TopicRoot(prefix, component, node) + "/" + id + "/";
            && t.discovery == under + "config"
            && t.state == under + "state"
            && t.availability == TopicRoot(prefix, component, node) + "/availability"
  {
  }

  /** The three topics of an image are pairwise distinct, whatever the configuration. */
  lemma TopicsDistinct(prefix: string, component: string, node: string, id: string)
    ensures var t := TopicsFor(prefix, component, node, id);
            t.availability != t.discovery && t.availability != t.state && t.discovery != t.state
  {
    var t := TopicsFor(prefix, component, node, id);
    var root := TopicRoot(prefix, component, node);
    var n := |root| + 1;
    assert t.availability[n..] == "availability";
    assert t.discovery[n..] == id + "/config";
    assert t.state[n..] == id + "/state";
    assert (id + "/config")[|id|] == '/';
    assert (id + "/state")[|id|] == '/';
    assert '/' !in "availability";
    assert |t.discovery| != |t.state|;
  }

  /**
    Two images share their discovery (and state) topic exactly when their
    repository names sanitise to the same id.
   */
  lemma SameTopicIffSameId(prefix: string, component: string, node: string, a: string, b: string)
    ensures TopicsFor(prefix, component, node, a).discovery == TopicsFor(prefix, component, node, b).discovery
            <==> a == b
    ensures TopicsFor(prefix, component, node, a).state == TopicsFor(prefix, component, node, b).state
            <==> a == b
  {
    var root := TopicRoot(prefix, component, node) + "/";
    var ta := TopicsFor(prefix, component, node, a);
    var tb := TopicsFor(prefix, component, node, b);
    if ta.discovery == tb.discovery {
      assert ta.discovery[|root|..|root| + |a|] == a;
      assert tb.discovery[|root|..|root| + |b|] == b;
    }
    if ta.state == tb.state {
      assert ta.state[|root|..|root| + |a|] == a;
      assert tb.state[|root|..|root| + |b|] == b;
    }
  }

  /** The state message: installed and latest version. */
  datatype StateMessage = StateMessage(installedVersion: string, latestVersion: string)

  /**
    The versions reported for an update: the short form of the new digest as
    latest; the short form of the previous digest as installed, or the latest
    version again when there is no previous digest.
   */
  function StateFor(digest: string, prevDigest: string): (m: StateMessage)
    ensures m.latestVersion == Last8(digest)
    ensures prevDigest == [] ==> m.installedVersion == m.latestVersion
    ensures prevDigest != [] ==> m.installedVersion == Last8(prevDigest)
  {
    var latest := Last8(digest);
    var installed := if |prevDigest| > 0 then Last8(prevDigest) else latest;
    StateMessage(installed, latest)
  }

  /**
    The message shows no pending update exactly when the image is first seen
    or both digests end in the same eight characters.
   */
  lemma NoUpdateShownIff(digest: string, prevDigest: string)
    ensures StateFor(digest, prevDigest).installedVersion == StateFor(digest, prevDigest).latestVersion
            <==> prevDigest == [] || Last8(prevDigest) == Last8(digest)
  {
  }

  /** Both reported versions are at most eight characters long and are suffixes of their digests. */
  lemma StateVersionsAreShortSuffixes(digest: string, prevDigest: string)
    ensures var m := StateFor(digest, prevDigest);
            && |m.latestVersion| <= ShortDigestLength
            && |m.installedVersion| <= ShortDigestLength
            && m.latestVersion == digest[|digest| - |m.latestVersion|..]
            && (prevDigest != [] ==> m.installedVersion == prevDigest[|prevDigest| - |m.installedVersion|..])
  {
  }

  /**
    Go's `byte(q)` conversion of the configured QoS: the low eight bits of the
    two's-complement value.
   */
  function QosByte(q: int): (b: int)
    ensures 0 <= b < 256
    ensures (q - b) % 256 == 0
    ensures 0 <= q < 256 ==> b == q
  {
    q % 256
  }
}
