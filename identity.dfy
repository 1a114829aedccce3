/** The id-or-slug lookup shared by posts and categories: `findById(token)`
    first, and `findOne({ slug: token })` only when that misses. */
module Identity {
  import opened Common
  import opened Seqs

  function Resolve<T>(s: seq<T>, idOf: T -> string, slugOf: T -> string, token: string): (r: Option<nat>)
    ensures r.Some? ==> r.value < |s|
    // the id wins: a slug match is returned only when no record has the token as id
    ensures r.Some? ==>
      || idOf(s[r.value]) == token
      || (slugOf(s[r.value]) == token && forall j :: 0 <= j < |s| ==> idOf(s[j]) != token)
    ensures (exists j :: 0 <= j < |s| && idOf(s[j]) == token) ==> r.Some? && idOf(s[r.value]) == token
    ensures r.None? <==> forall j :: 0 <= j < |s| ==> idOf(s[j]) != token && slugOf(s[j]) != token
  {
    match FindFirst(s, x => idOf(x) == token)
    case Some(i) => Some(i)
    case None => FindFirst(s, x => slugOf(x) == token)
  }
}
