/**
  Worked examples of what the notifier derives from concrete image
  references and digests, and the general facts behind them.
 */
module Scenarios {
  import opened Segments
  import opened Naming

  /** A tag (or anything after the first `:`) is dropped from a reference. */
  lemma RepoNameDropsSuffix(repo: string, stop: char, rest: string)
    requires ':' !in repo && '@' !in repo
    requires stop == ':' || stop == '@'
    ensures RepoName(repo + [stop] + rest) == repo
  {
    var image := repo + [stop] + rest;
    assert image[|repo|] == stop;
    assert repo <= image;
    RepoNameIsCutAtFirstStop(image, repo);
  }

  /** The display name is whatever follows the last `/`. */
  lemma DisplayNameAfterLastSlash(path: string, name: string)
    requires '/' !in name
    ensures DisplayName(path + "/" + name) == name
  {
    var repo := path + "/" + name;
    assert repo[|repo| - |name|..] == name;
    assert repo[|repo| - |name| - 1] == '/';
    LastUnique(repo, '/', name);
  }

  /**
    The common case, `docker.io/library/nginx:latest`. The examples take
    their strings as parameters so that the verifier reasons through the
    general lemmas rather than evaluating the recursion on literals.
   */
  lemma NginxExample(path: string, name: string, tag: string)
    requires path == "docker.io/library" && name == "nginx" && tag == "latest"
    ensures RepoName(path + "/" + name + ":" + tag) == path + "/" + name
    ensures DisplayName(path + "/" + name) == name
  {
    var repo := path + "/" + name;
    assert ':' !in repo && '@' !in repo by {
      assert forall i :: 0 <= i < |repo| ==> repo[i] != ':' && repo[i] != '@';
    }
    assert repo + [':'] + tag == path + "/" + name + ":" + tag;
    RepoNameDropsSuffix(repo, ':', tag);
    DisplayNameAfterLastSlash(path, name);
  }

  /** A separator outside the id alphabet becomes `-`; an id-shaped tail is kept. */
  lemma SanitizeSeparator(x: string, c: char, y: string)
    requires !IsIdChar(c) && IsId(y)
    ensures Sanitize(x + [c] + y) == Sanitize(x) + "-" + y
  {
    SanitizeAppend(x, [c]);
    SanitizeAppend(x + [c], y);
    SanitizeFixesExactlyIds(y);
  }

  /** The unique id of `docker.io/library/nginx`: dots and slashes become dashes. */
  lemma NginxIdExample(a: string, b: string, c: string, d: string)
    requires a == "docker" && b == "io" && c == "library" && d == "nginx"
    ensures Sanitize(a + "." + b + "/" + c + "/" + d) == a + "-" + b + "-" + c + "-" + d
  {
    SanitizeFixesExactlyIds(a);
    SanitizeSeparator(a, '.', b);
    SanitizeSeparator(a + "." + b, '/', c);
    SanitizeSeparator(a + "." + b + "/" + c, '/', d);
  }

  /** A tag and a digest together: both are dropped. */
  lemma TagAndDigestExample(repo: string, rest: string)
    requires repo == "registry.io/ns/repo" && rest == "1.2@sha256:abcd"
    ensures RepoName(repo + ":" + rest) == repo
  {
    RepoNameDropsSuffix(repo, ':', rest);
  }

  /**
    A digest-pinned reference without a tag or a path: the `:` inside the
    digest is cut first, then the `@`, and the bare name is its own display
    name and id.
   */
  lemma DigestOnlyExample(repo: string, digest: string)
    requires repo == "repo" && digest == "sha256:abcd"
    ensures RepoName(repo + "@" + digest) == repo
    ensures DisplayName(repo) == repo
    ensures Sanitize(repo) == repo
  {
    RepoNameDropsSuffix(repo, '@', digest);
    assert forall i :: 0 <= i < |repo| ==> 'a' <= repo[i] <= 'z';
    SanitizeFixesExactlyIds(repo);
  }

  /**
    A registry host with a port, as in `localhost:5000/app:1.0`: the first
    `:` is the port separator, so the repository name collapses to the host,
    and every repository on that registry gets the same id and topics.
   */
  lemma RegistryPortCollapses(host: string, port: string, path: string, tag: string)
    requires ':' !in host && '@' !in host
    ensures RepoName(host + ":" + port + "/" + path + ":" + tag) == host
    ensures Sanitize(RepoName(host + ":" + port + "/" + path + ":" + tag)) == Sanitize(host)
    ensures IsId(host) ==> Sanitize(RepoName(host + ":" + port + "/" + path + ":" + tag)) == host
  {
    var rest := port + "/" + path + ":" + tag;
    assert host + ":" + port + "/" + path + ":" + tag == host + [':'] + rest;
    RepoNameDropsSuffix(host, ':', rest);
    SanitizeFixesExactlyIds(host);
  }

  /** A first sighting reports the new digest's last eight characters as both versions. */
  lemma FirstSightingExample()
    ensures StateFor("sha256:1111111122222222", "") == StateMessage("22222222", "22222222")
  {
  }

  /** An update reports the previous digest as installed and the new one as latest. */
  lemma UpdateExample()
    ensures StateFor("sha256:1111111122222222", "sha256:aaaaaaaabbbbbbbb") == StateMessage("bbbbbbbb", "22222222")
  {
  }
}
