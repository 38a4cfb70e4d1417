/**
  One user card of src/components/UserCard.jsx: the card shows its `user`
  prop, keeps a "liked" flag and an edit draft, and reports saves and
  deletions to the collection as effects (`onUpdate`, `onDelete`).
 */
module Card {
  import opened Users

  /** The character of a decimal digit. */
  function DigitChar(d: int): (ch: char)
    requires 0 <= d < 10
    ensures '0' <= ch <= '9'
    ensures ch as int - '0' as int == d
  {
    ('0' as int + d) as char
  }

  /** The decimal digits of a natural number, as JavaScript prints it below
      2^53 (larger numbers lose precision, and from 10^21 on print in exponent
      form). */
  function Digits(n: nat): (s: string)
    ensures |s| >= 1
    ensures n < 10 <==> |s| == 1
    ensures forall k :: 0 <= k < |s| ==> '0' <= s[k] <= '9'
  {
    if n < 10 then [DigitChar(n)] else Digits(n / 10) + [DigitChar(n % 10)]
  }

  /** Different numbers print differently. */
  lemma {:induction false} DigitsInjective(a: nat, b: nat)
    requires Digits(a) == Digits(b)
    ensures a == b
  {
    var s := Digits(a);
    // one digit exactly when below ten, so both are below ten or neither is
    if a < 10 {
      assert s[0] == DigitChar(a) && s[0] == DigitChar(b);
    } else {
      var n := |s|;
      assert s[n - 1] == DigitChar(a % 10) && s[n - 1] == DigitChar(b % 10);
      assert s[..n - 1] == Digits(a / 10) && s[..n - 1] == Digits(b / 10);
      DigitsInjective(a / 10, b / 10);
    }
  }

  /** An integer id as it appears in a template string: `String(id)`. */
  function IdText(id: int): (s: string)
    ensures |s| >= 1
    ensures s[0] == '-' <==> id < 0
  {
    if id < 0 then "-" + Digits(-id) else Digits(id)
  }

  lemma IdTextInjective(a: int, b: int)
    requires IdText(a) == IdText(b)
    ensures a == b
  {
    if a < 0 {
      assert IdText(a)[1..] == Digits(-a) && IdText(b)[1..] == Digits(-b);
      DigitsInjective(-a, -b);
    } else {
      DigitsInjective(a, b);
    }
  }

  /** `${user.id || user.name}`: the id's text unless the id is falsy (zero),
      else the name. */
  function AvatarSeed(u: User): (s: string)
    ensures u.id != 0 ==> s == IdText(u.id)
    ensures u.id == 0 ==> s == u.profile.name
  {
    if u.id != 0 then IdText(u.id) else u.profile.name
  }

  /** The avatar URL the card shows, seeded by `AvatarSeed`. */
  function AvatarUrl(u: User): (url: string)
    ensures |url| == |AvatarUrlPrefix| + |AvatarSeed(u)|
    ensures url[..|AvatarUrlPrefix|] == AvatarUrlPrefix
    ensures url[|AvatarUrlPrefix|..] == AvatarSeed(u)
  {
    AvatarUrlPrefix + AvatarSeed(u)
  }

  const AvatarUrlPrefix: string := "https://api.dicebear.com/9.x/notionists/svg?seed="

  /** Records with different non-zero ids never share an avatar URL. */
  lemma DistinctIdsDistinctAvatars(u: User, v: User)
    requires u.id != 0 && v.id != 0
    requires u.id != v.id
    ensures AvatarSeed(u) != AvatarSeed(v)
    ensures AvatarUrl(u) != AvatarUrl(v)
  {
    if AvatarSeed(u) == AvatarSeed(v) {
      IdTextInjective(u.id, v.id);
    }
  }

  /** The falsy id 0 falls back to the name, which can spell another user's
      id: id 0 named "7" and id 7 get the same avatar. */
  lemma ZeroIdSeedCanCollide(p: Profile, q: Profile)
    requires p.name == "7"
    ensures AvatarUrl(User(0, p)) == AvatarUrl(User(7, q))
  {
    assert Digits(7) == "7";
  }

  /** `setLiked(!liked)`. */
  function Toggle(liked: bool): (r: bool)
    ensures r != liked
  {
    !liked
  }

  lemma ToggleTwice(liked: bool)
    ensures Toggle(Toggle(liked)) == liked
  {
  }

  /** The card's local state: its prop, the edit draft, the liked flag and
      whether the edit modal is shown. */
  datatype CardState = CardState(user: User, draft: User, liked: bool, show: bool)

  /** What the card asks of the collection. */
  datatype Effect = NoEffect | UpdateUser(updated: User) | DeleteUser(id: int)

  datatype Event =
    | PressLike
    | PressEdit
    | Input(field: TextField, value: string)
    | NestedInput(path: NestedPath, value: string)
    | PressSave
    | PressCancel     // the Cancel button and the modal's own close both hide it
    | PressDelete

  /** A freshly mounted card: the draft is the user, not liked, modal hidden. */
  function Mount(u: User): (c: CardState)
    ensures c.user == u && c.draft == u
    ensures !c.liked && !c.show
  {
    CardState(u, u, false, false)
  }

  /** `handleInputChange`: sets one top-level field of the draft. */
  function HandleInputChange(c: CardState, f: TextField, value: string): (r: CardState)
    ensures r == c.(draft := r.draft) && r.draft.id == c.draft.id
    ensures Get(r.draft.profile, f) == value
    ensures forall g :: g != f ==> Get(r.draft.profile, g) == Get(c.draft.profile, g)
    ensures forall path :: GetNested(r.draft.profile, path) == GetNested(c.draft.profile, path)
  {
    c.(draft := c.draft.(profile := SetField(c.draft.profile, f, value)))
  }

  /** `handleNestedInputChange`: sets one nested field of the draft, keeping
      its siblings (`address.street` when `address.city` is edited) and every
      top-level field. */
  function HandleNestedInputChange(c: CardState, path: NestedPath, value: string): (r: CardState)
    ensures r == c.(draft := r.draft) && r.draft.id == c.draft.id
    ensures GetNested(r.draft.profile, path) == value
    ensures forall other :: other != path ==> GetNested(r.draft.profile, other) == GetNested(c.draft.profile, other)
    ensures forall f :: Get(r.draft.profile, f) == Get(c.draft.profile, f)
  {
    c.(draft := c.draft.(profile := SetNested(c.draft.profile, path, value)))
  }

  /** `handleSave`: hands the draft to `onUpdate` and hides the modal; the
      draft itself is kept. */
  function HandleSave(c: CardState): (r: (CardState, Effect))
    ensures r.1.UpdateUser? && r.1.updated == c.draft
    ensures r.0 == c.(show := false)
  {
    (c.(show := false), UpdateUser(c.draft))
  }

  /** The card's reaction to one event: its next state and its effect. */
  function Step(c: CardState, e: Event): (r: (CardState, Effect))
    // the card never changes its prop, nor the draft's id
    ensures r.0.user == c.user
    ensures r.0.draft.id == c.draft.id
    // the only update is a save of the current draft
    ensures r.1.UpdateUser? <==> e == PressSave
    ensures r.1.UpdateUser? ==> r.1.updated == c.draft
    ensures e == PressSave ==> r == HandleSave(c)
    // the only deletion is of the card's own user, and leaves the card as it was
    ensures r.1.DeleteUser? <==> e == PressDelete
    ensures r.1.DeleteUser? ==> r.1.id == c.user.id && r.0 == c
    // cancel only hides the modal; the draft keeps unsaved edits
    ensures e == PressCancel ==> r == (c.(show := false), NoEffect)
    ensures e == PressEdit ==> r == (c.(show := true), NoEffect)
    ensures e == PressLike ==> r.0 == c.(liked := r.0.liked) && r.0.liked != c.liked && r.1 == NoEffect
    // inputs perform the draft edits and report nothing
    ensures e.Input? ==> r == (HandleInputChange(c, e.field, e.value), NoEffect)
    ensures e.NestedInput? ==> r == (HandleNestedInputChange(c, e.path, e.value), NoEffect)
  {
    match e
    case PressLike => (c.(liked := Toggle(c.liked)), NoEffect)
    case PressEdit => (c.(show := true), NoEffect)
    case Input(f, v) => (HandleInputChange(c, f, v), NoEffect)
    case NestedInput(path, v) => (HandleNestedInputChange(c, path, v), NoEffect)
    case PressSave => HandleSave(c)
    case PressCancel => (c.(show := false), NoEffect)
    case PressDelete => (c, DeleteUser(c.user.id))
  }

  /** The card after a sequence of events. */
  function Run(c: CardState, events: seq<Event>): (r: CardState)
    ensures r.user == c.user
    ensures r.draft.id == c.draft.id
    decreases |events|
  {
    if |events| == 0 then c else Run(Step(c, events[0]).0, events[1..])
  }

  /** Whatever the user types, a card mounted for `u` saves a record with
      `u`'s id, and deletes exactly `u`'s id. */
  lemma MountedCardTargetsItsUser(u: User, events: seq<Event>)
    ensures var c := Run(Mount(u), events);
            && Step(c, PressSave).1.UpdateUser?
            && Step(c, PressSave).1.updated.id == u.id
            && Step(c, PressDelete).1 == DeleteUser(u.id)
  {
  }

  /** Two presses of the like button restore the card. */
  lemma LikeTwiceRestores(c: CardState)
    ensures Step(Step(c, PressLike).0, PressLike).0 == c
  {
  }

  /** Cancel does not reset the draft: an edit made before cancelling is
      still in the draft when the modal is opened again, and the cancel
      itself reports no update. */
  lemma {:induction false} CancelKeepsEdits(u: User, v: string)
    ensures Step(Run(Mount(u), [PressEdit, Input(Name, v)]), PressCancel).1 == NoEffect
    ensures var c := Run(Mount(u), [PressEdit, Input(Name, v), PressCancel, PressEdit]);
            c.show && c.draft.profile.name == v && c.draft.id == u.id
  {
    var events := [PressEdit, Input(Name, v), PressCancel, PressEdit];
    var c0 := Mount(u);
    var c1 := Step(c0, PressEdit).0;
    var c2 := Step(c1, Input(Name, v)).0;
    var c3 := Step(c2, PressCancel).0;
    var c4 := Step(c3, PressEdit).0;
    assert events[1..] == [Input(Name, v), PressCancel, PressEdit];
    assert events[1..][1..] == [PressCancel, PressEdit];
    assert events[1..][1..][1..] == [PressEdit];
    assert events[1..][1..][1..][1..] == [];
    assert Run(c3, [PressEdit]) == c4;
    assert Run(c2, [PressCancel, PressEdit]) == c4;
    assert Run(c1, [Input(Name, v), PressCancel, PressEdit]) == c4;
  }
}
