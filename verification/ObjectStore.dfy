/** The content-addressed store of response bodies, over a map from paths to file contents
    (internal/fetchlog/store.go). The hash is a parameter. */
module ObjectStore {
  import opened Utf8

  type Body = seq<byte>

  datatype Fetched = Found(body: Body) | NotFound | Corrupt

  predicate IsHex(c: char) {
    '0' <= c <= '9' || 'a' <= c <= 'f'
  }

  /** What SHA-256 in hexadecimal looks like. */
  ghost predicate IsDigest(d: string) {
    |d| == 64 && forall i | 0 <= i < |d| :: IsHex(d[i])
  }

  ghost predicate Hashes(hash: Body -> string) {
    forall b :: IsDigest(hash(b))
  }

  /** The path of an object below the objects directory. */
  function Rel(d: string): string {
    if |d| < 4 then d else d[..2] + "/" + d[2..]
  }

  /** The digest a path claims. */
  function Claimed(path: string): string {
    if path == "" then "" else (if path[0] == '/' then [] else [path[0]]) + Claimed(path[1..])
  }

  lemma {:induction false} ClaimedPlain(s: string)
    requires '/' !in s
    ensures Claimed(s) == s
  {
    if s != "" {
      assert s == [s[0]] + s[1..];
      ClaimedPlain(s[1..]);
    }
  }

  lemma {:induction false} ClaimedConcat(s: string, t: string)
    ensures Claimed(s + t) == Claimed(s) + Claimed(t)
  {
    if s == "" {
      assert s + t == t;
    } else {
      assert (s + t)[1..] == s[1..] + t;
      ClaimedConcat(s[1..], t);
    }
  }

  /** The audit reads off a path the digest the path was made from. */
  lemma ClaimedRel(d: string)
    requires IsDigest(d)
    ensures Claimed(Rel(d)) == d
  {
    ClaimedConcat(d[..2] + "/", d[2..]);
    ClaimedConcat(d[..2], "/");
    ClaimedPlain(d[..2]);
    ClaimedPlain(d[2..]);
    assert Claimed("/") == "";
    assert d == d[..2] + d[2..];
  }

  /** Different digests have different paths. */
  lemma RelInjective(d: string, e: string)
    requires IsDigest(d) && IsDigest(e) && Rel(d) == Rel(e)
    ensures d == e
  {
    ClaimedRel(d);
    ClaimedRel(e);
  }

  /** Every file holds what its path says. */
  ghost predicate Intact(hash: Body -> string, files: map<string, Body>) {
    forall p | p in files :: hash(files[p]) == Claimed(p)
  }

  /** What Get answers. */
  function Answer(hash: Body -> string, files: map<string, Body>, d: string): Fetched {
    if Rel(d) !in files then NotFound
    else if hash(files[Rel(d)]) != d then Corrupt
    else Found(files[Rel(d)])
  }

  /** What Put leaves: an object already there is left alone. */
  function Stored(hash: Body -> string, files: map<string, Body>, body: Body): map<string, Body> {
    if Rel(hash(body)) in files then files else files[Rel(hash(body)) := body]
  }

  /** Storing keeps the store intact and changes no answer about other digests. */
  lemma StoredKeeps(hash: Body -> string, files: map<string, Body>, body: Body, d: string)
    requires Hashes(hash) && IsDigest(d)
    ensures Intact(hash, files) ==> Intact(hash, Stored(hash, files, body))
    ensures d != hash(body) ==> Answer(hash, Stored(hash, files, body), d) == Answer(hash, files, d)
    ensures Answer(hash, files, d).Found? ==> Answer(hash, Stored(hash, files, body), d) == Answer(hash, files, d)
  {
    ClaimedRel(hash(body));
    if d != hash(body) && Rel(d) == Rel(hash(body)) {
      RelInjective(d, hash(body));
    }
  }

  /** What was just stored comes back exactly when the object was absent, or what lay at its
      address still hashed to it: a damaged object is reported stored and stays damaged. */
  lemma StoredComesBack(hash: Body -> string, files: map<string, Body>, body: Body)
    ensures var d := hash(body);
            Answer(hash, Stored(hash, files, body), d).Found? <==> (Rel(d) !in files || hash(files[Rel(d)]) == d)
    ensures Rel(hash(body)) !in files ==> Answer(hash, Stored(hash, files, body), hash(body)) == Found(body)
  {
  }

  /** In an intact store it always comes back, and it is the same body unless two bodies collide. */
  lemma StoredRoundTrip(hash: Body -> string, files: map<string, Body>, body: Body)
    requires Hashes(hash) && Intact(hash, files)
    ensures var a := Answer(hash, Stored(hash, files, body), hash(body));
            a.Found? && ((forall b :: hash(b) == hash(body) ==> b == body) ==> a == Found(body))
  {
    ClaimedRel(hash(body));
    StoredComesBack(hash, files, body);
  }

  // ---- What a store answers, from what was put in it ----

  /** A fresh store after these bodies were put, one after the other. */
  function AllStored(hash: Body -> string, bodies: seq<Body>): map<string, Body> {
    if bodies == [] then map[] else Stored(hash, AllStored(hash, bodies[..|bodies| - 1]), bodies[|bodies| - 1])
  }

  /** The first of the bodies with that digest. */
  ghost predicate FirstWith(hash: Body -> string, bodies: seq<Body>, d: string, k: int) {
    0 <= k < |bodies| && hash(bodies[k]) == d && forall i | 0 <= i < k :: hash(bodies[i]) != d
  }

  /** A digest is answered with the first body put that has it, and is not found when none has; a
      store that was only put into is never corrupt. */
  lemma {:induction false} AnswersTellPuts(hash: Body -> string, bodies: seq<Body>, d: string)
    requires Hashes(hash) && IsDigest(d)
    ensures forall k | FirstWith(hash, bodies, d, k) :: Answer(hash, AllStored(hash, bodies), d) == Found(bodies[k])
    ensures (forall i | 0 <= i < |bodies| :: hash(bodies[i]) != d) ==> Answer(hash, AllStored(hash, bodies), d) == NotFound
    ensures Intact(hash, AllStored(hash, bodies))
    decreases |bodies|
  {
    hide Rel, Claimed, IsDigest;
    if bodies != [] {
      var before, body := bodies[..|bodies| - 1], bodies[|bodies| - 1];
      var files := AllStored(hash, before);
      AnswersTellPuts(hash, before, d);
      AnswersTellPuts(hash, before, hash(body));
      StoredKeeps(hash, files, body, d);
      StoredComesBack(hash, files, body);
      assert forall i | 0 <= i < |before| :: before[i] == bodies[i];
      forall k | FirstWith(hash, bodies, d, k)
        ensures Answer(hash, AllStored(hash, bodies), d) == Found(bodies[k])
      {
        if k < |before| {
          assert FirstWith(hash, before, d, k);
        } else {
          assert hash(body) == d && forall i | 0 <= i < |before| :: hash(before[i]) != d;
          NotFoundIsAbsent(hash, files, d);
        }
      }
    }
  }

  lemma NotFoundIsAbsent(hash: Body -> string, files: map<string, Body>, d: string)
    ensures Answer(hash, files, d) == NotFound ==> Rel(d) !in files
  {
    hide Rel;
  }

  /** The path of an object: the first two digits, a slash, and the others. */
  lemma RelShape(d: string)
    requires IsDigest(d)
    ensures |Rel(d)| == 65 && Rel(d)[2] == '/' && Rel(d)[..2] == d[..2] && Rel(d)[3..] == d[2..]
  {
  }

  // ---- A crash in the middle of Put ----

  /** The temporary file of a write that was cut short after some bytes. */
  predicate IsTemp(path: string) {
    |path| > 4 && path[2..4] == "/."
  }

  /** A crash before the rename changes no answer, but the audit finds what it left behind. */
  lemma CrashInPut(hash: Body -> string, files: map<string, Body>, temp: string, part: Body, d: string)
    requires Hashes(hash) && IsDigest(d) && IsTemp(temp) && temp !in files
    ensures Answer(hash, files[temp := part], d) == Answer(hash, files, d)
    ensures !Intact(hash, files[temp := part])
  {
    assert Rel(d)[3] == d[2] && temp[3] == '.' by { assert temp[2..4][1] == '.'; }
    ClaimedDot(temp, 3);
    var all := files[temp := part];
    assert '.' in Claimed(temp) && !IsHex('.');
    assert temp in all && IsDigest(hash(all[temp]));
  }

  lemma {:induction false} ClaimedDot(s: string, k: nat)
    requires k < |s| && s[k] == '.'
    ensures '.' in Claimed(s)
  {
    if k > 0 {
      ClaimedDot(s[1..], k - 1);
    }
  }

  class Store {
    var files: map<string, Body>
    const hash: Body -> string

    constructor (hash: Body -> string)
      ensures files == map[] && this.hash == hash
    {
      files := map[];
      this.hash := hash;
    }

    method Put(body: Body) returns (digest: string)
      modifies this
      ensures digest == hash(body) && files == Stored(hash, old(files), body)
    {
      digest := hash(body);
      if Rel(digest) in files {
        return;
      }
      files := files[Rel(digest) := body];
    }

    method Get(digest: string) returns (r: Fetched)
      ensures r == Answer(hash, files, digest)
    {
      if Rel(digest) !in files {
        return NotFound;
      }
      var body := files[Rel(digest)];
      if hash(body) != digest {
        return Corrupt;
      }
      return Found(body);
    }

    /** The audit: reads every file and checks it against its path. */
    method Verify() returns (ok: bool)
      ensures ok <==> Intact(hash, files)
    {
      var rest := files.Keys;
      while rest != {}
        invariant rest <= files.Keys
        invariant forall p | p in files && p !in rest :: hash(files[p]) == Claimed(p)
        decreases rest
      {
        var p :| p in rest;
        if hash(files[p]) != Claimed(p) {
          return false;
        }
        rest := rest - {p};
      }
      return true;
    }
  }
}
