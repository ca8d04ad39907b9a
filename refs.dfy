/** References as the archiver records them, the errors of the whole core,
    and the conversions between a remote-tracking ref name such as
    `origin/master` and a `Ref`. */
module Refs {
  import opened Wrappers
  import opened Text

  /** The only remote the archiver fetches from. */
  const Origin: string := "origin"

  /** A branch of a remote (`tag == false`) or a tag (`tag == true`). */
  datatype Ref = Ref(remote: string, name: string, tag: bool)

  /** Every way an update can fail. */
  datatype Error =
    | NonUtf8                       // a line of git output is not UTF-8
    | InvalidOperation              // a status code outside the operation table
    | BadRemoteRef(refname: string) // no '/' in the name, or the wrong remote before it
    | Rejected(refname: string)     // git-fetch refused to update this ref
    | Unexpected                    // the fall-through branch of the Python parser
    | MissingRef(refname: string)   // the ref does not resolve to a commit
    | MissingBranch(name: string)   // deleting a branch that does not exist

  /** Splits `refname` at its first '/' and checks the part before it
      against `remote`. */
  function ParseRemoteRef(refname: string, remote: string): (r: Result<Ref, Error>)
    ensures r.Err? ==> r == Err(BadRemoteRef(refname))
    ensures r.Ok? ==> r.value.remote == remote && !r.value.tag
    ensures r.Ok? ==> refname == remote + "/" + r.value.name
  {
    match IndexOf(refname, '/')
    case None => Err(BadRemoteRef(refname))
    case Some(k) =>
      if refname[..k] != remote then Err(BadRemoteRef(refname))
      else
        assert refname == refname[..k] + "/" + refname[k + 1..];
        Ok(Ref(remote, refname[k + 1..], false))
  }

  /** The name git knows a ref by: a tag by its own name, a branch by
      `remote/name`. */
  function RefName(r: Ref): (s: string)
    ensures r.tag ==> s == r.name
    ensures !r.tag ==> |s| == |r.remote| + 1 + |r.name| && s[|r.remote|] == '/'
    ensures !r.tag ==> s[..|r.remote|] == r.remote && s[|r.remote| + 1..] == r.name
  {
    if r.tag then r.name else r.remote + "/" + r.name
  }

  /** Parsing a remote ref name and printing it again gives the input back. */
  lemma RefNameOfParse(refname: string, remote: string)
    requires ParseRemoteRef(refname, remote).Ok?
    ensures RefName(ParseRemoteRef(refname, remote).value) == refname
  {
  }

  /** In `remote/name` with no '/' in the remote, the first '/' is the
      one after the remote. */
  lemma FirstSlash(remote: string, name: string)
    requires '/' !in remote
    ensures IndexOf(remote + "/" + name, '/') == Some(|remote|)
  {
    var s := remote + "/" + name;
    assert s[|remote|] == '/';
    assert forall j :: 0 <= j < |remote| ==> s[j] == remote[j];
  }

  /** Printing a branch ref and parsing it again gives the ref back,
      provided the remote itself has no '/'. */
  lemma ParseOfRefName(r: Ref)
    requires !r.tag && '/' !in r.remote
    ensures ParseRemoteRef(RefName(r), r.remote) == Ok(r)
  {
    FirstSlash(r.remote, r.name);
  }

  /** With a remote free of '/', parsing fails exactly when the input does
      not start with the remote followed by '/'. */
  lemma ParseRemoteRefFails(refname: string, remote: string)
    requires '/' !in remote
    ensures ParseRemoteRef(refname, remote).Err? <==>
            !(|refname| > |remote| && refname[..|remote|] == remote && refname[|remote|] == '/')
  {
    if |refname| > |remote| && refname[..|remote|] == remote && refname[|remote|] == '/' {
      var name := refname[|remote| + 1..];
      assert refname == remote + "/" + name;
      FirstSlash(remote, name);
    }
  }
}
