/**
 * The response patch of jd_price.js: `body.replace('</body>', html + '</body>')`.
 * With a string pattern, `String.prototype.replace` replaces the first
 * occurrence only and expands the `$` patterns of the replacement text
 * (GetSubstitution, section 22.1.3.19.1 of ECMAScript 2023).
 */
module ResponsePatch {
  import opened Options

  const BodyClose := "</body>"

  /** `pat` occurs in `s` at position `i`. */
  predicate OccursAt(s: string, pat: string, i: nat) {
    i + |pat| <= |s| && s[i..i + |pat|] == pat
  }

  /** `s.indexOf(pat, from)`: the first occurrence at or after `from`. */
  function IndexOf(s: string, pat: string, from: nat): (r: Option<nat>)
    ensures r.Some? ==> from <= r.value && OccursAt(s, pat, r.value)
    ensures r.Some? ==> forall i :: from <= i < r.value ==> !OccursAt(s, pat, i)
    ensures r.None? ==> forall i :: from <= i ==> !OccursAt(s, pat, i)
    decreases |s| - from
  {
    if from + |pat| > |s| then None
    else if OccursAt(s, pat, from) then Some(from)
    else IndexOf(s, pat, from + 1)
  }

  /**
   * The replacement text with its `$` patterns expanded for a match of
   * `matched` between `before` and `after`: `$$` is `$`, `$&` the match,
   * `` $` `` the text before it, `$'` the text after it. A string pattern has
   * no capture groups, so `$1` or `$<` stay as they are.
   */
  function Substitute(template: string, matched: string, before: string, after: string): (r: string)
    ensures '$' !in template ==> r == template
    decreases |template|
  {
    if |template| == 0 then ""
    else if template[0] == '$' && |template| >= 2 && template[1] in "$&`'" then
      var expansion :=
        if template[1] == '$' then "$"
        else if template[1] == '&' then matched
        else if template[1] == '`' then before
        else after;
      expansion + Substitute(template[2..], matched, before, after)
    else
      assert '$' !in template ==> '$' !in template[1..] by {
        if '$' in template[1..] {
          var i :| 0 <= i < |template[1..]| && template[1..][i] == '$';
          assert template[i + 1] == '$';
        }
      }
      [template[0]] + Substitute(template[1..], matched, before, after)
  }

  /** `s.replace(pat, replacement)` for a string `pat`. */
  function Replace(s: string, pat: string, replacement: string): (r: string)
    ensures (forall i: nat :: !OccursAt(s, pat, i)) ==> r == s
    ensures forall i: nat :: OccursAt(s, pat, i) && (forall j: nat :: j < i ==> !OccursAt(s, pat, j)) ==>
              r == s[..i] + Substitute(replacement, pat, s[..i], s[i + |pat|..]) + s[i + |pat|..]
  {
    match IndexOf(s, pat, 0)
    case None => s
    case Some(i) => s[..i] + Substitute(replacement, pat, s[..i], s[i + |pat|..]) + s[i + |pat|..]
  }

  /** The body `modifyResponse` hands back, as the source computes it. */
  function ModifyResponse(body: string, html: string): (r: string)
    ensures (forall i: nat :: !OccursAt(body, BodyClose, i)) ==> r == body
  {
    Replace(body, BodyClose, html + BodyClose)
  }

  /** Replacing the `</body>` at `i` by `html + "</body>"` inserts `html` before it. */
  lemma SpliceAt(body: string, i: nat, html: string)
    requires OccursAt(body, BodyClose, i)
    ensures body[..i] + (html + BodyClose) + body[i + |BodyClose|..] == body[..i] + html + body[i..]
  {
    assert body[i..] == body[i..i + |BodyClose|] + body[i + |BodyClose|..];
  }

  /**
   * The splice the patch is meant to perform: `html` inserted verbatim
   * immediately before the first `</body>`, and the body unchanged when
   * there is none.
   */
  function InsertBeforeBodyClose(body: string, html: string): (r: string)
    ensures (forall i: nat :: !OccursAt(body, BodyClose, i)) ==> r == body
    ensures forall i: nat :: OccursAt(body, BodyClose, i) && (forall j: nat :: j < i ==> !OccursAt(body, BodyClose, j)) ==>
              r == body[..i] + html + body[i..]
  {
    match IndexOf(body, BodyClose, 0)
    case None => body
    case Some(i) =>
      SpliceAt(body, i, html);
      body[..i] + (html + BodyClose) + body[i + |BodyClose|..]
  }

  /** When the fragment holds no `$`, the source's patch is exactly that splice. */
  lemma ModifyResponseInserts(body: string, html: string)
    requires '$' !in html
    ensures ModifyResponse(body, html) == InsertBeforeBodyClose(body, html)
  {
    match IndexOf(body, BodyClose, 0)
    case None =>
    case Some(i) =>
      assert '$' !in html + BodyClose;
  }

  /** `$$` at the head of a replacement text becomes a single `$`. */
  lemma SubstituteEscapedDollar(rest: string, matched: string, before: string, after: string)
    requires '$' !in rest
    ensures Substitute("$$" + rest, matched, before, after) == "$" + rest
  {
    assert ("$$" + rest)[2..] == rest;
  }

  /** The `$` patterns make the source's patch differ from the intended splice. */
  lemma DollarInFragment()
    ensures ModifyResponse(BodyClose, "$$") == "$" + BodyClose
    ensures InsertBeforeBodyClose(BodyClose, "$$") == "$$" + BodyClose
  {
    assert OccursAt(BodyClose, BodyClose, 0);
    SubstituteEscapedDollar(BodyClose, BodyClose, "", "");
  }
}
