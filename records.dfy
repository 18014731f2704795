/**
 * The records the handlers build as plain expressions: the new post, the
 * new comment and its clock-derived identifier, the admin check and the
 * settings merge.
 */
module Records {
  import opened Values

  /** Milliseconds since the epoch, as `new Date()` / `Date.now()` give them. */
  type Timestamp = int

  datatype Comment = Comment(id: string, text: Option<string>, user: Option<string>, date: Timestamp)

  /**
   * A stored post. `likes` and `comments` are optional because a stored
   * document may lack them; the like handler reads a missing `likes` as `[]`
   * and `$push` creates a missing `comments` array.
   */
  datatype Post = Post(
    content: string,
    image: Option<string>,
    avatar: Option<string>,
    date: Timestamp,
    likes: Option<seq<string>>,
    comments: Option<seq<Comment>>)

  /** JavaScript truthiness of a string field read from a request body: absent and `""` are falsy. */
  predicate Truthy(field: Option<string>): (t: bool)
    ensures field.None? ==> !t
    ensures field.Some? ==> (t <==> |field.value| > 0)
  {
    field.Some? && field.value != ""
  }

  /**
   * The admin gate: `password !== ADMIN_PASSWORD` refuses. The configured
   * secret may be unset; then both sides are `undefined` exactly when the
   * request carries no password, and such a request is let through.
   */
  predicate Authorized(password: Option<string>, secret: Option<string>): (ok: bool)
    ensures secret.Some? && password.None? ==> !ok
    ensures secret.Some? && password.Some? ==> (ok <==> password.value == secret.value)
    ensures secret.None? ==> (ok <==> password.None?)
  {
    password == secret
  }

  /** The document a successful create-post stores: the given fields, the time of creation, no likes, no comments. */
  function NewPost(content: string, image: Option<string>, avatar: Option<string>, now: Timestamp): (p: Post)
    ensures p.content == content && p.image == image && p.avatar == avatar && p.date == now
    ensures p.likes.GetOr([]) == [] && p.likes.Some?
    ensures p.comments.GetOr([]) == [] && p.comments.Some?
  {
    Post(content, image, avatar, now, Some([]), Some([]))
  }

  // ---- comment identifiers: `Date.now().toString()` ----

  function DigitChar(d: nat): (c: char)
    requires d < 10
    ensures '0' <= c <= '9'
  {
    "0123456789"[d]
  }

  function DigitValue(c: char): (d: nat)
    requires '0' <= c <= '9'
    ensures d < 10 && DigitChar(d) == c
  {
    (c as int - '0' as int) as nat
  }

  ghost predicate AllDigits(s: string) {
    forall i :: 0 <= i < |s| ==> '0' <= s[i] <= '9'
  }

  /** The decimal reading of a digit string. */
  function DecimalValue(s: string): nat
    requires AllDigits(s)
  {
    if s == [] then 0 else 10 * DecimalValue(s[..|s| - 1]) + DigitValue(s[|s| - 1])
  }

  /** The decimal rendering of a non-negative integer, as `Number.prototype.toString()` writes it. */
  function DecimalString(n: nat): (s: string)
    ensures |s| >= 1 && AllDigits(s)
    ensures s[0] == '0' ==> n == 0 && s == "0"
    decreases n
  {
    if n < 10 then [DigitChar(n)] else DecimalString(n / 10) + [DigitChar(n % 10)]
  }

  /** Reading the rendered digits back gives the number: the rendering loses nothing. */
  lemma {:induction false} DecimalRoundTrip(n: nat)
    ensures DecimalValue(DecimalString(n)) == n
    decreases n
  {
    var s := DecimalString(n);
    if n < 10 {
      assert DigitValue(DigitChar(n)) == n;
    } else {
      DecimalRoundTrip(n / 10);
      assert s[..|s| - 1] == DecimalString(n / 10);
      assert DigitValue(DigitChar(n % 10)) == n % 10;
    }
  }

  /**
   * Two comments get the same identifier only when the clock read the same
   * millisecond; nothing in the handler prevents that, so identifiers are not
   * guaranteed unique.
   */
  lemma CommentIdsDistinct(m: nat, n: nat)
    requires m != n
    ensures DecimalString(m) != DecimalString(n)
  {
    DecimalRoundTrip(m);
    DecimalRoundTrip(n);
  }

  /** The comment the comment handler builds from the request and the two clock readings. */
  function NewComment(text: Option<string>, user: Option<string>, clock: nat, now: Timestamp): (c: Comment)
    ensures AllDigits(c.id) && DecimalValue(c.id) == clock
    ensures c.text == text && c.user == user && c.date == now
  {
    DecimalRoundTrip(clock);
    Comment(DecimalString(clock), text, user, now)
  }

  // ---- settings ----

  /** The discriminator every settings write forces. */
  const SettingsType: string := "type"
  const General: Json := JStr("general")

  /**
   * `$set: { ...settings, type: 'general' }` with `upsert: true` on the general
   * settings document: a shallow merge of the patch over the current document
   * (or over nothing when there is none yet), with `type` forced to "general".
   */
  function Merged(current: Option<Doc>, patch: Option<Doc>): (r: Doc)
    ensures r.Keys == current.GetOr(map[]).Keys + patch.GetOr(map[]).Keys + {SettingsType}
    ensures r[SettingsType] == General
    ensures forall k :: k in patch.GetOr(map[]) && k != SettingsType ==> r[k] == patch.value[k]
    ensures forall k :: k in current.GetOr(map[]) && k !in patch.GetOr(map[]) && k != SettingsType ==> r[k] == current.value[k]
  {
    (current.GetOr(map[]) + patch.GetOr(map[]))[SettingsType := General]
  }
}
