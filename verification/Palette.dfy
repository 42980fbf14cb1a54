/**
 * Making the text colours of a dark palette readable: a foreground is blended, step by
 * step, towards an endpoint until its contrast with every background is high enough.
 * Contrast and luminance are those of WCAG 2.1; the transfer curve is a parameter.
 */
module Palette {
  import opened Wrappers
  import opened Bytes

  datatype Rgb = Rgb(red: Byte, green: Byte, blue: Byte)

  const WHITE := Rgb(255, 255, 255)
  const BLACK := Rgb(0, 0, 0)
  const TEXT_CONTRAST := 4.75
  const STEPS: nat := 256

  // ---- Blending ----

  /** `round` of a fraction: to the nearest integer, ties to even. */
  function Round(n: int, d: nat): int
    requires d > 0
  {
    var q, r := n / d, n % d;
    if 2 * r < d || (2 * r == d && q % 2 == 0) then q else q + 1
  }

  /** `255 * (a + (b - a) * step / 255)` */
  function Scaled(a: Byte, b: Byte, step: nat): int { 255 * a + (b - a) * step }

  lemma ScaledBounds(a: Byte, b: Byte, step: nat)
    requires step < STEPS
    ensures 0 <= Scaled(a, b, step) <= 255 * 255
  {
    if a <= b {
      Product(b - a, step);
    } else {
      Product(a - b, step);
      assert (b - a) * step == -((a - b) * step);
    }
  }

  lemma Product(x: nat, y: nat)
    requires y <= 255
    ensures 0 <= x * y <= 255 * x
  {
    assert x * (255 - y) == 255 * x - x * y;
    assert x * (255 - y) >= 0;
  }

  function Blend(a: Byte, b: Byte, step: nat): Byte
    requires step < STEPS
  {
    ScaledBounds(a, b, step);
    Round(Scaled(a, b, step), 255)
  }

  function BlendRgb(a: Rgb, b: Rgb, step: nat): Rgb
    requires step < STEPS
  {
    Rgb(Blend(a.red, b.red, step), Blend(a.green, b.green, step), Blend(a.blue, b.blue, step))
  }

  /** The rounding is never asked to break a tie: the blend is the one nearest byte. */
  lemma BlendIsNearest(a: Byte, b: Byte, step: nat)
    requires step < STEPS
    ensures var n := 255 * a + (b - a) * step;
            && 2 * (n % 255) != 255
            && forall v: int :: v != Blend(a, b, step) ==>
                 Distance(n, 255 * Blend(a, b, step)) < Distance(n, 255 * v)
  {
    var n := Scaled(a, b, step);
    var w: int := Blend(a, b, step);
    assert Distance(n, 255 * w) <= 127;
    forall v: int | v != w
      ensures Distance(n, 255 * w) < Distance(n, 255 * v)
    {
      assert v >= w + 1 || v <= w - 1;
    }
  }

  function Distance(a: int, b: int): nat { if a < b then b - a else a - b }

  lemma BlendEnds(a: Rgb, b: Rgb)
    ensures BlendRgb(a, b, 0) == a && BlendRgb(a, b, 255) == b
  {
  }

  // ---- The search ----

  /** Whether the first colour is readable on the second. */
  type Relation = (Rgb, Rgb) -> bool

  predicate Passes(l: Relation, c: Rgb, backgrounds: seq<Rgb>)
  {
    forall i :: 0 <= i < |backgrounds| ==> l(c, backgrounds[i])
  }

  /** Which of the 256 blends pass. */
  function Trials(l: Relation, foreground: Rgb, backgrounds: seq<Rgb>, endpoint: Rgb): (t: seq<bool>)
    ensures |t| == STEPS
  {
    seq(STEPS, step requires 0 <= step < STEPS => Passes(l, BlendRgb(foreground, endpoint, step), backgrounds))
  }

  function FirstTrue(trials: seq<bool>, from: nat): (step: nat)
    requires from <= |trials|
    ensures from <= step <= |trials|
    ensures step < |trials| ==> trials[step]
    ensures forall j :: from <= j < step ==> !trials[j]
    decreases |trials| - from
  {
    if from == |trials| || trials[from] then from else FirstTrue(trials, from + 1)
  }

  /** The blend of the first step that passes, if one does. */
  function Readable(l: Relation, foreground: Rgb, backgrounds: seq<Rgb>, endpoint: Rgb): Option<Rgb>
  {
    var step := FirstTrue(Trials(l, foreground, backgrounds, endpoint), 0);
    if step == STEPS then None else Some(BlendRgb(foreground, endpoint, step))
  }

  /** A colour found passes, and no earlier blend does; none is found only when none passes. */
  lemma ReadableIsLeast(l: Relation, foreground: Rgb, backgrounds: seq<Rgb>, endpoint: Rgb)
    ensures match Readable(l, foreground, backgrounds, endpoint)
            case Some(c) =>
              Passes(l, c, backgrounds) &&
              exists step :: 0 <= step < STEPS && c == BlendRgb(foreground, endpoint, step)
                             && forall j :: 0 <= j < step ==> !Passes(l, BlendRgb(foreground, endpoint, j), backgrounds)
            case None => forall j :: 0 <= j < STEPS ==> !Passes(l, BlendRgb(foreground, endpoint, j), backgrounds)
  {
    var trials := Trials(l, foreground, backgrounds, endpoint);
    var step := FirstTrue(trials, 0);
    forall j | 0 <= j < step
      ensures !Passes(l, BlendRgb(foreground, endpoint, j), backgrounds)
    {
      assert !trials[j];
    }
  }

  lemma KeepsPassing(l: Relation, c: Rgb, backgrounds: seq<Rgb>, endpoint: Rgb)
    requires Passes(l, c, backgrounds)
    ensures Readable(l, c, backgrounds, endpoint) == Some(c)
  {
    BlendEnds(c, endpoint);
    assert Trials(l, c, backgrounds, endpoint)[0];
  }

  lemma ReachesEndpoint(l: Relation, c: Rgb, backgrounds: seq<Rgb>, endpoint: Rgb)
    requires Passes(l, endpoint, backgrounds)
    ensures Readable(l, c, backgrounds, endpoint).Some?
  {
    BlendEnds(c, endpoint);
    ReadableIsLeast(l, c, backgrounds, endpoint);
  }

  // ---- The palette ----

  datatype Role = Primary | Secondary | Tertiary | Danger

  const ROLES: seq<Role> := [Primary, Secondary, Tertiary, Danger]

  datatype Key =
    | Surface | SurfaceVariant | OnSurface | OnSurfaceVariant
    | Fill(role: Role) | Text(role: Role)
    | Hover | OnHover

  type Mode = map<Key, Rgb>

  predicate Complete(m: Mode)
  {
    && Surface in m && SurfaceVariant in m && OnSurface in m && OnSurfaceVariant in m
    && forall role: Role :: Fill(role) in m && Text(role) in m
  }

  function Surfaces(m: Mode): seq<Rgb>
    requires Complete(m)
  {
    [m[Surface], m[SurfaceVariant]]
  }

  /** One assignment `mode[key] = readable(mode[key], backgrounds, endpoint)`. */
  function Fix(l: Relation, m: Mode, key: Key, backgrounds: seq<Rgb>, endpoint: Rgb): Option<Mode>
    requires key in m
  {
    match Readable(l, m[key], backgrounds, endpoint)
    case None => None
    case Some(c) => Some(m[key := c])
  }

  function FixRole(l: Relation, m: Mode, role: Role): Option<Mode>
    requires Complete(m)
  {
    match Fix(l, m, Fill(role), Surfaces(m), m[OnSurface])
    case None => None
    case Some(n) => Fix(l, n, Text(role), [n[Fill(role)]], BLACK)
  }

  function FixRoles(l: Relation, m: Mode, roles: seq<Role>): (r: Option<Mode>)
    requires Complete(m)
    ensures r.Some? ==> Complete(r.value)
    decreases |roles|, m
  {
    if roles == [] then Some(m)
    else
      match FixRole(l, m, roles[0])
      case None => None
      case Some(n) => FixRoles(l, n, roles[1..])
  }

  function FixText(l: Relation, m: Mode): (r: Option<Mode>)
    requires Complete(m)
    ensures r.Some? ==> Complete(r.value)
  {
    match Fix(l, m, OnSurface, Surfaces(m), WHITE)
    case None => None
    case Some(n) => Fix(l, n, OnSurfaceVariant, Surfaces(n), n[OnSurface])
  }

  function Prepared(l: Relation, m: Mode): Option<Mode>
    requires Complete(m)
  {
    match FixText(l, m)
    case None => None
    case Some(n) =>
      match FixRoles(l, n, ROLES)
      case None => None
      case Some(p) => Some(Hovered(p))
  }

  /** The hover colours follow the tertiary ones. */
  function Hovered(m: Mode): Mode
    requires Complete(m)
  {
    m[Hover := m[Fill(Tertiary)]][OnHover := m[Text(Tertiary)]]
  }

  /** Every pair the shell renders is readable. */
  predicate RoleReadable(l: Relation, m: Mode, role: Role)
    requires Complete(m)
  {
    Passes(l, m[Fill(role)], Surfaces(m)) && Passes(l, m[Text(role)], [m[Fill(role)]])
  }

  predicate TextReadable(l: Relation, m: Mode)
    requires Complete(m)
  {
    Passes(l, m[OnSurface], Surfaces(m)) && Passes(l, m[OnSurfaceVariant], Surfaces(m))
  }

  predicate AllReadable(l: Relation, m: Mode)
    requires Complete(m)
  {
    && TextReadable(l, m) && (forall role: Role :: RoleReadable(l, m, role))
    && Hover in m && OnHover in m && m[Hover] == m[Fill(Tertiary)] && m[OnHover] == m[Text(Tertiary)]
  }

  /** White is readable on both surfaces, and black on whatever is readable on the first. */
  ghost predicate Suitable(l: Relation, m: Mode)
    requires Complete(m)
  {
    Passes(l, WHITE, Surfaces(m)) && forall c :: l(c, m[Surface]) ==> l(BLACK, c)
  }

  lemma TextFixed(l: Relation, m: Mode)
    requires Complete(m)
    ensures FixText(l, m).Some? ==>
              var n := FixText(l, m).value;
              TextReadable(l, n) && n == m[OnSurface := n[OnSurface]][OnSurfaceVariant := n[OnSurfaceVariant]]
    ensures Suitable(l, m) ==> FixText(l, m).Some?
    ensures TextReadable(l, m) ==> FixText(l, m) == Some(m)
  {
    ReadableIsLeast(l, m[OnSurface], Surfaces(m), WHITE);
    var first := Fix(l, m, OnSurface, Surfaces(m), WHITE);
    if first.Some? {
      var n := first.value;
      assert Surfaces(n) == Surfaces(m);
      ReadableIsLeast(l, n[OnSurfaceVariant], Surfaces(n), n[OnSurface]);
      ReachesEndpoint(l, n[OnSurfaceVariant], Surfaces(n), n[OnSurface]);
    }
    if Suitable(l, m) {
      ReachesEndpoint(l, m[OnSurface], Surfaces(m), WHITE);
    }
    if TextReadable(l, m) {
      KeepsPassing(l, m[OnSurface], Surfaces(m), WHITE);
      assert m[OnSurface := m[OnSurface]] == m;
      KeepsPassing(l, m[OnSurfaceVariant], Surfaces(m), m[OnSurface]);
      assert m[OnSurfaceVariant := m[OnSurfaceVariant]] == m;
    }
  }

  /** `n` differs from `m` in the fills and texts of `roles` only. */
  predicate OnlyRoles(m: Mode, n: Mode, roles: seq<Role>)
  {
    n.Keys == m.Keys && forall k :: k in m && !((k.Fill? || k.Text?) && k.role in roles) ==> n[k] == m[k]
  }

  lemma RoleFixed(l: Relation, m: Mode, role: Role)
    requires Complete(m) && FixRole(l, m, role).Some?
    ensures var n := FixRole(l, m, role).value;
            OnlyRoles(m, n, [role]) && RoleReadable(l, n, role)
  {
    ReadableIsLeast(l, m[Fill(role)], Surfaces(m), m[OnSurface]);
    var n := Fix(l, m, Fill(role), Surfaces(m), m[OnSurface]).value;
    ReadableIsLeast(l, n[Text(role)], [n[Fill(role)]], BLACK);
    var p := FixRole(l, m, role).value;
    assert Surfaces(p) == Surfaces(m);
  }

  lemma RoleSucceeds(l: Relation, m: Mode, role: Role)
    requires Complete(m) && Passes(l, m[OnSurface], Surfaces(m)) && Suitable(l, m)
    ensures FixRole(l, m, role).Some?
  {
    ReachesEndpoint(l, m[Fill(role)], Surfaces(m), m[OnSurface]);
    ReadableIsLeast(l, m[Fill(role)], Surfaces(m), m[OnSurface]);
    var n := Fix(l, m, Fill(role), Surfaces(m), m[OnSurface]).value;
    var fill := n[Fill(role)];
    assert l(fill, Surfaces(m)[0]);
    ReachesEndpoint(l, n[Text(role)], [fill], BLACK);
  }

  lemma RoleKept(l: Relation, m: Mode, role: Role)
    requires Complete(m) && RoleReadable(l, m, role)
    ensures FixRole(l, m, role) == Some(m)
  {
    KeepsPassing(l, m[Fill(role)], Surfaces(m), m[OnSurface]);
    assert m[Fill(role) := m[Fill(role)]] == m;
    KeepsPassing(l, m[Text(role)], [m[Fill(role)]], BLACK);
    assert m[Text(role) := m[Text(role)]] == m;
  }

  predicate Repeats(roles: seq<Role>)
  {
    exists i, j :: 0 <= i < j < |roles| && roles[i] == roles[j]
  }

  ghost predicate RolesReadable(l: Relation, m: Mode, roles: seq<Role>)
    requires Complete(m)
  {
    forall role :: role in roles ==> RoleReadable(l, m, role)
  }

  lemma {:induction false} RolesFixed(l: Relation, m: Mode, roles: seq<Role>)
    requires Complete(m) && !Repeats(roles) && FixRoles(l, m, roles).Some?
    ensures OnlyRoles(m, FixRoles(l, m, roles).value, roles) && RolesReadable(l, FixRoles(l, m, roles).value, roles)
    decreases |roles|
  {
    if roles != [] {
      RoleFixed(l, m, roles[0]);
      var n := FixRole(l, m, roles[0]).value;
      RolesFixed(l, n, roles[1..]);
    }
  }

  lemma {:induction false} RolesSucceed(l: Relation, m: Mode, roles: seq<Role>)
    requires Complete(m) && Passes(l, m[OnSurface], Surfaces(m)) && Suitable(l, m)
    ensures FixRoles(l, m, roles).Some?
    decreases |roles|
  {
    if roles != [] {
      RoleSucceeds(l, m, roles[0]);
      RoleFixed(l, m, roles[0]);
      assert Surfaces(FixRole(l, m, roles[0]).value) == Surfaces(m);
      RolesSucceed(l, FixRole(l, m, roles[0]).value, roles[1..]);
    }
  }

  lemma {:induction false} RolesKept(l: Relation, m: Mode, roles: seq<Role>)
    requires Complete(m) && forall role: Role :: RoleReadable(l, m, role)
    ensures FixRoles(l, m, roles) == Some(m)
    decreases |roles|
  {
    if roles != [] {
      RoleKept(l, m, roles[0]);
      RolesKept(l, m, roles[1..]);
    }
  }

  lemma EveryRole(role: Role)
    ensures role in ROLES
  {
    assert ROLES[0] == Primary && ROLES[1] == Secondary && ROLES[2] == Tertiary && ROLES[3] == Danger;
  }

  /** Preparing a palette, when it does not fail, makes every pair readable and leaves the surfaces. */
  lemma PreparedIsReadable(l: Relation, m: Mode)
    requires Complete(m) && Prepared(l, m).Some?
    ensures var p := Prepared(l, m).value;
            && Complete(p) && AllReadable(l, p) && p.Keys == m.Keys + {Hover, OnHover}
            && p[Surface] == m[Surface] && p[SurfaceVariant] == m[SurfaceVariant]
  {
    TextFixed(l, m);
    var n := FixText(l, m).value;
    RolesFixed(l, n, ROLES);
    PrepareComposes(l, m, n, FixRoles(l, n, ROLES).value);
  }

  lemma PrepareComposes(l: Relation, m: Mode, n: Mode, p: Mode)
    requires Complete(m) && Complete(n) && Complete(p)
    requires TextReadable(l, n) && n == m[OnSurface := n[OnSurface]][OnSurfaceVariant := n[OnSurfaceVariant]]
    requires OnlyRoles(n, p, ROLES) && RolesReadable(l, p, ROLES)
    ensures var last := Hovered(p);
            && Complete(last) && AllReadable(l, last) && last.Keys == m.Keys + {Hover, OnHover}
            && last[Surface] == m[Surface] && last[SurfaceVariant] == m[SurfaceVariant]
  {
    HoverReadable(l, p);
  }

  lemma HoverReadable(l: Relation, m: Mode)
    requires Complete(m) && TextReadable(l, m) && forall role :: role in ROLES ==> RoleReadable(l, m, role)
    ensures Complete(Hovered(m)) && AllReadable(l, Hovered(m))
  {
    forall role: Role
      ensures RoleReadable(l, Hovered(m), role)
    {
      EveryRole(role);
    }
  }

  /** Preparing a prepared palette changes nothing. */
  lemma PreparedTwice(l: Relation, m: Mode)
    requires Complete(m) && Prepared(l, m).Some?
    ensures Complete(Prepared(l, m).value) && Prepared(l, Prepared(l, m).value) == Prepared(l, m)
  {
    PreparedIsReadable(l, m);
    ReadableIsKept(l, Prepared(l, m).value);
  }

  lemma ReadableIsKept(l: Relation, m: Mode)
    requires Complete(m) && AllReadable(l, m)
    ensures Prepared(l, m) == Some(m)
  {
    TextFixed(l, m);
    RolesKept(l, m, ROLES);
    assert Hovered(m) == m;
  }

  lemma SuitablePrepares(l: Relation, m: Mode)
    requires Complete(m) && Suitable(l, m)
    ensures Prepared(l, m).Some?
  {
    TextFixed(l, m);
    var n := FixText(l, m).value;
    assert Surfaces(n) == Surfaces(m);
    RolesSucceed(l, n, ROLES);
  }

  predicate BlendedTo(l: Relation, from: Rgb, backgrounds: seq<Rgb>, endpoint: Rgb, to: Rgb)
  {
    Readable(l, from, backgrounds, endpoint) == Some(to)
  }

  /** `p` holds the colours of `m` blended: a role's fill to the text colour, its text to black. */
  predicate RoleBlended(l: Relation, m: Mode, p: Mode, role: Role)
    requires Complete(m) && Complete(p)
  {
    && BlendedTo(l, m[Fill(role)], Surfaces(m), p[OnSurface], p[Fill(role)])
    && BlendedTo(l, m[Text(role)], [p[Fill(role)]], Rgb(0, 0, 0), p[Text(role)])
  }

  /** The colours that decide about a role. */
  predicate SameFor(m: Mode, n: Mode, role: Role)
    requires Complete(m) && Complete(n)
  {
    && Surfaces(m) == Surfaces(n) && m[OnSurface] == n[OnSurface]
    && m[Fill(role)] == n[Fill(role)] && m[Text(role)] == n[Text(role)]
  }

  lemma BlendedFrame(l: Relation, m: Mode, n: Mode, p: Mode, q: Mode, role: Role)
    requires Complete(m) && Complete(n) && Complete(p) && Complete(q)
    requires RoleBlended(l, m, p, role) && SameFor(m, n, role) && SameFor(p, q, role)
    ensures RoleBlended(l, n, q, role)
  {
  }

  lemma OneRoleBlended(l: Relation, m: Mode, role: Role)
    requires Complete(m) && FixRole(l, m, role).Some?
    ensures RoleBlended(l, m, FixRole(l, m, role).value, role)
  {
    var n := Fix(l, m, Fill(role), Surfaces(m), m[OnSurface]).value;
    assert n[Text(role)] == m[Text(role)] && n[OnSurface] == m[OnSurface];
  }

  lemma OthersSame(m: Mode, n: Mode, roles: seq<Role>, role: Role)
    requires Complete(m) && Complete(n) && OnlyRoles(m, n, roles) && role !in roles
    ensures SameFor(m, n, role)
  {
  }

  lemma {:induction false} RolesBlended(l: Relation, m: Mode, roles: seq<Role>, role: Role)
    requires Complete(m) && !Repeats(roles) && FixRoles(l, m, roles).Some? && role in roles
    ensures RoleBlended(l, m, FixRoles(l, m, roles).value, role)
    decreases |roles|
  {
    var n, rest := FixRole(l, m, roles[0]).value, roles[1..];
    assert !Repeats(rest);
    var p := FixRoles(l, n, rest).value;
    RoleFixed(l, m, roles[0]);
    RolesFixed(l, n, rest);
    if role == roles[0] {
      assert role !in rest;
      OneRoleBlended(l, m, role);
      OthersSame(n, p, rest, role);
      BlendedFrame(l, m, m, n, p, role);
    } else {
      RolesBlended(l, n, rest, role);
      OthersSame(m, n, [roles[0]], role);
      BlendedFrame(l, n, m, p, p, role);
    }
  }

  lemma TextBlended(l: Relation, m: Mode)
    requires Complete(m) && FixText(l, m).Some?
    ensures var n := FixText(l, m).value;
            && BlendedTo(l, m[OnSurface], Surfaces(m), Rgb(255, 255, 255), n[OnSurface])
            && BlendedTo(l, m[OnSurfaceVariant], Surfaces(m), n[OnSurface], n[OnSurfaceVariant])
  {
    var first := Fix(l, m, OnSurface, Surfaces(m), WHITE).value;
    assert Surfaces(first) == Surfaces(m) && first[OnSurfaceVariant] == m[OnSurfaceVariant];
  }

  /** Every colour is the first readable blend of the old one: the text's to white, the variant's to that text. */
  lemma PreparedBlends(l: Relation, m: Mode, role: Role)
    requires Complete(m) && Prepared(l, m).Some?
    ensures var p := Prepared(l, m).value;
            && Complete(p)
            && BlendedTo(l, m[OnSurface], Surfaces(m), Rgb(255, 255, 255), p[OnSurface])
            && BlendedTo(l, m[OnSurfaceVariant], Surfaces(m), p[OnSurface], p[OnSurfaceVariant])
            && RoleBlended(l, m, p, role)
  {
    TextFixed(l, m);
    TextBlended(l, m);
    var n := FixText(l, m).value;
    var p := FixRoles(l, n, ROLES).value;
    RolesFixed(l, n, ROLES);
    EveryRole(role);
    RolesBlended(l, n, ROLES, role);
    BlendsCompose(l, m, n, p, role);
  }

  lemma BlendsCompose(l: Relation, m: Mode, n: Mode, p: Mode, role: Role)
    requires Complete(m) && Complete(n) && Complete(p) && OnlyRoles(n, p, ROLES) && RoleBlended(l, n, p, role)
    requires n == m[OnSurface := n[OnSurface]][OnSurfaceVariant := n[OnSurfaceVariant]]
    ensures var last := Hovered(p);
            && Complete(last) && last[OnSurface] == n[OnSurface] && last[OnSurfaceVariant] == n[OnSurfaceVariant]
            && RoleBlended(l, m, last, role)
  {
    assert Surfaces(n) == Surfaces(m) && SameFor(p, Hovered(p), role);
    assert m[Fill(role)] == n[Fill(role)] && m[Text(role)] == n[Text(role)];
  }

  // ---- Luminance and contrast ----

  /** The linear value of each channel byte. */
  type Gamma = seq<real>

  predicate ValidGamma(g: Gamma)
  {
    |g| == 256 && g[0] == 0.0 && g[255] == 1.0 && forall i, j :: 0 <= i <= j < 256 ==> g[i] <= g[j]
  }

  function Luminance(g: Gamma, c: Rgb): (l: real)
    requires ValidGamma(g)
    ensures 0.0 <= l <= 1.0
  {
    0.2126 * g[c.red] + 0.7152 * g[c.green] + 0.0722 * g[c.blue]
  }

  function Ratio(x: real, y: real): real
    requires x > 0.0 && y > 0.0
  {
    if x <= y then y / x else x / y
  }

  function Contrast(g: Gamma, a: Rgb, b: Rgb): real
    requires ValidGamma(g)
  {
    Ratio(Luminance(g, a) + 0.05, Luminance(g, b) + 0.05)
  }

  /** Each channel's share; all of them make white. */
  lemma LuminanceExactly(g: Gamma, v: Byte)
    requires ValidGamma(g)
    ensures 10000.0 * Luminance(g, Rgb(v, 0, 0)) == 2126.0 * g[v]
    ensures 10000.0 * Luminance(g, Rgb(0, v, 0)) == 7152.0 * g[v]
    ensures 10000.0 * Luminance(g, Rgb(0, 0, v)) == 722.0 * g[v]
    ensures Luminance(g, Rgb(v, v, v)) == g[v]
  {
  }

  /** Contrast does not depend on which colour is the text; a twentieth is added to both luminances. */
  lemma ContrastExactly(g: Gamma, a: Rgb, b: Rgb)
    requires ValidGamma(g) && Luminance(g, a) >= Luminance(g, b)
    ensures Contrast(g, a, b) == (20.0 * Luminance(g, a) + 1.0) / (20.0 * Luminance(g, b) + 1.0) == Contrast(g, b, a)
    ensures Contrast(g, WHITE, BLACK) == 21.0
  {
    var x, y := Luminance(g, a) + 0.05, Luminance(g, b) + 0.05;
    Cancel(x, y);
    Cancel(1.05, 0.05);
  }

  lemma Cancel(x: real, y: real)
    requires y > 0.0
    ensures x / y == (20.0 * x) / (20.0 * y)
  {
    var q := x / y;
    assert q * y == x && q * (20.0 * y) == 20.0 * x;
  }

  /** `Contrast(a, b) >= TEXT_CONTRAST`, without the division. */
  predicate Legible(g: Gamma, a: Rgb, b: Rgb)
    requires ValidGamma(g)
  {
    var x, y := Luminance(g, a) + 0.05, Luminance(g, b) + 0.05;
    x >= TEXT_CONTRAST * y || y >= TEXT_CONTRAST * x
  }

  lemma LegibleIsContrast(g: Gamma, a: Rgb, b: Rgb)
    requires ValidGamma(g)
    ensures Legible(g, a, b) <==> Contrast(g, a, b) >= TEXT_CONTRAST
  {
    RatioPasses(Luminance(g, a) + 0.05, Luminance(g, b) + 0.05);
  }

  lemma RatioPasses(x: real, y: real)
    requires x > 0.0 && y > 0.0
    ensures Ratio(x, y) >= TEXT_CONTRAST <==> x >= TEXT_CONTRAST * y || y >= TEXT_CONTRAST * x
  {
    if x <= y {
      Quotient(y, x, TEXT_CONTRAST);
    } else {
      Quotient(x, y, TEXT_CONTRAST);
    }
  }

  lemma Quotient(high: real, low: real, k: real)
    requires low > 0.0
    ensures high / low >= k <==> high >= k * low
  {
    var q := high / low;
    assert q * low == high;
    if q >= k {
      assert (q - k) * low >= 0.0;
    } else {
      assert (k - q) * low > 0.0;
    }
  }

  // ---- Which backgrounds can be written on ----

  /** White reaches the target on backgrounds up to this luminance, black from the other on. */
  const WHITE_LIMIT := 13.0 / 76.0
  const BLACK_LIMIT := 3.0 / 16.0

  /** Between the two limits no colour at all is readable. */
  lemma NothingPasses(g: Gamma, c: Rgb, background: Rgb)
    requires ValidGamma(g) && WHITE_LIMIT < Luminance(g, background) < BLACK_LIMIT
    ensures !Legible(g, c, background)
  {
  }

  /** Some colour is readable on a background exactly when white or black is, and that depends on these limits. */
  lemma WritableExactly(g: Gamma, background: Rgb)
    requires ValidGamma(g)
    ensures Legible(g, WHITE, background) <==> Luminance(g, background) <= 13.0 / 76.0
    ensures Legible(g, BLACK, background) <==> Luminance(g, background) >= 3.0 / 16.0
    ensures (exists c: Rgb :: Legible(g, c, background)) <==>
            Legible(g, WHITE, background) || Legible(g, BLACK, background)
  {
    if WHITE_LIMIT < Luminance(g, background) < BLACK_LIMIT {
      forall c: Rgb
        ensures !Legible(g, c, background)
      {
        NothingPasses(g, c, background);
      }
    }
  }

  /** What is readable on a dark background is light enough for black text. */
  lemma PassingIsLight(g: Gamma, c: Rgb, background: Rgb)
    requires ValidGamma(g) && Luminance(g, background) <= WHITE_LIMIT
    requires Legible(g, c, background)
    ensures Luminance(g, c) >= BLACK_LIMIT
  {
  }

  /** WCAG's verdict on a text colour and its background. */
  function Wcag(g: Gamma): Relation
    requires ValidGamma(g)
  {
    (a, b) => Legible(g, a, b)
  }

  predicate DarkSurfaces(g: Gamma, m: Mode)
    requires ValidGamma(g) && Complete(m)
  {
    Luminance(g, m[Surface]) <= WHITE_LIMIT && Luminance(g, m[SurfaceVariant]) <= WHITE_LIMIT
  }

  lemma DarkIsSuitable(g: Gamma, m: Mode)
    requires ValidGamma(g) && Complete(m) && DarkSurfaces(g, m)
    ensures Suitable(Wcag(g), m)
  {
    forall c | Legible(g, c, m[Surface])
      ensures Legible(g, BLACK, c)
    {
      PassingIsLight(g, c, m[Surface]);
    }
  }

  predicate InGap(l: real) { WHITE_LIMIT < l < BLACK_LIMIT }

  /**
   * For every palette: preparing succeeds when both surfaces are dark enough for white
   * text, and fails when one is between the two limits. On surfaces below the second
   * limit that decides it.
   */
  lemma PreparesExactly(g: Gamma, m: Mode)
    requires ValidGamma(g) && Complete(m)
    ensures DarkSurfaces(g, m) ==> Prepared(Wcag(g), m).Some?
    ensures InGap(Luminance(g, m[Surface])) || InGap(Luminance(g, m[SurfaceVariant])) ==> Prepared(Wcag(g), m).None?
    ensures Luminance(g, m[Surface]) < BLACK_LIMIT && Luminance(g, m[SurfaceVariant]) < BLACK_LIMIT ==>
              (Prepared(Wcag(g), m).Some? <==> DarkSurfaces(g, m))
  {
    if DarkSurfaces(g, m) {
      DarkIsSuitable(g, m);
      SuitablePrepares(Wcag(g), m);
    } else if InGap(Luminance(g, m[Surface])) || InGap(Luminance(g, m[SurfaceVariant])) {
      var i := if InGap(Luminance(g, m[Surface])) then 0 else 1;
      forall c
        ensures !Passes(Wcag(g), c, Surfaces(m))
      {
        NothingPasses(g, c, Surfaces(m)[i]);
      }
      ReadableIsLeast(Wcag(g), m[OnSurface], Surfaces(m), WHITE);
    }
  }

  /** A palette that is white but for its surfaces. */
  function WhiteOn(surface: Rgb, variant: Rgb): (m: Mode)
    ensures Complete(m) && Surfaces(m) == [surface, variant] && m[OnSurface] == WHITE
  {
    var m: Mode := map[
        Surface := surface, SurfaceVariant := variant, OnSurface := WHITE, OnSurfaceVariant := WHITE,
        Fill(Primary) := WHITE, Fill(Secondary) := WHITE, Fill(Tertiary) := WHITE, Fill(Danger) := WHITE,
        Text(Primary) := WHITE, Text(Secondary) := WHITE, Text(Tertiary) := WHITE, Text(Danger) := WHITE];
    assert forall role: Role ::
        role.Primary? || role.Secondary? || role.Tertiary? || role.Danger? ==> Fill(role) in m && Text(role) in m;
    m
  }

  lemma WhiteUnprepared(g: Gamma, surface: Rgb, variant: Rgb)
    requires ValidGamma(g) && (Luminance(g, surface) > WHITE_LIMIT || Luminance(g, variant) > WHITE_LIMIT)
    ensures Prepared(Wcag(g), WhiteOn(surface, variant)).None?
  {
    var surfaces := [surface, variant];
    var i := if Luminance(g, surface) > WHITE_LIMIT then 0 else 1;
    forall step | 0 <= step < STEPS
      ensures !Passes(Wcag(g), BlendRgb(WHITE, WHITE, step), surfaces)
    {
      assert !Wcag(g)(WHITE, surfaces[i]);
    }
    ReadableIsLeast(Wcag(g), WHITE, surfaces, WHITE);
  }

  /** For any two surfaces: preparing never fails on them exactly when both are dark enough for white text. */
  lemma NeverFailsExactly(g: Gamma, surface: Rgb, variant: Rgb)
    requires ValidGamma(g)
    ensures (forall m: Mode :: Complete(m) && Surfaces(m) == [surface, variant] ==> Prepared(Wcag(g), m).Some?)
            <==> Luminance(g, surface) <= WHITE_LIMIT && Luminance(g, variant) <= WHITE_LIMIT
  {
    if Luminance(g, surface) <= WHITE_LIMIT && Luminance(g, variant) <= WHITE_LIMIT {
      forall m: Mode | Complete(m) && Surfaces(m) == [surface, variant]
        ensures Prepared(Wcag(g), m).Some?
      {
        assert Surfaces(m)[0] == surface && Surfaces(m)[1] == variant;
        DarkIsSuitable(g, m);
        SuitablePrepares(Wcag(g), m);
      }
    } else {
      WhiteUnprepared(g, surface, variant);
      var m := WhiteOn(surface, variant);
      assert Complete(m) && Surfaces(m) == [surface, variant];
    }
  }

  /** Every pair of a palette that was prepared has the contrast WCAG asks to be measured. */
  lemma PreparedHasContrast(g: Gamma, m: Mode, role: Role)
    requires ValidGamma(g) && Complete(m) && Prepared(Wcag(g), m).Some?
    ensures var p := Prepared(Wcag(g), m).value;
            && Complete(p) && Surfaces(p) == Surfaces(m)
            && (forall s :: s in Surfaces(m) ==>
                  && Contrast(g, p[OnSurface], s) >= 4.75
                  && Contrast(g, p[OnSurfaceVariant], s) >= 4.75
                  && Contrast(g, p[Fill(role)], s) >= 4.75)
            && Contrast(g, p[Text(role)], p[Fill(role)]) >= 4.75
  {
    PreparedIsReadable(Wcag(g), m);
    var p := Prepared(Wcag(g), m).value;
    assert RoleReadable(Wcag(g), p, role);
    PassesHaveContrast(g, p[OnSurface], Surfaces(p));
    PassesHaveContrast(g, p[OnSurfaceVariant], Surfaces(p));
    PassesHaveContrast(g, p[Fill(role)], Surfaces(p));
    PassesHaveContrast(g, p[Text(role)], [p[Fill(role)]]);
  }

  lemma PassesHaveContrast(g: Gamma, c: Rgb, backgrounds: seq<Rgb>)
    requires ValidGamma(g)
    ensures Passes(Wcag(g), c, backgrounds) <==> forall s :: s in backgrounds ==> Contrast(g, c, s) >= TEXT_CONTRAST
  {
    forall s | s in backgrounds
      ensures Legible(g, c, s) <==> Contrast(g, c, s) >= TEXT_CONTRAST
    {
      LegibleIsContrast(g, c, s);
    }
  }

  // ---- The program ----

  /** The loop over the 256 blends. `None` stands for the raised error. */
  method FindReadable(l: Relation, foreground: Rgb, backgrounds: seq<Rgb>, endpoint: Rgb) returns (r: Option<Rgb>)
    ensures r == Readable(l, foreground, backgrounds, endpoint)
  {
    var trials := Trials(l, foreground, backgrounds, endpoint);
    for step := 0 to STEPS
      invariant FirstTrue(trials, 0) == FirstTrue(trials, step)
    {
      var candidate := BlendRgb(foreground, endpoint, step);
      assert trials[step] == Passes(l, candidate, backgrounds);
      if Passes(l, candidate, backgrounds) {
        return Some(candidate);
      }
    }
    return None;
  }

  class Scheme {
    const legible: Relation
    var mode: Mode

    constructor (legible: Relation, mode: Mode)
      ensures this.legible == legible && this.mode == mode
    {
      this.legible := legible;
      this.mode := mode;
    }

    /** `mode[key] = readable(...)`; on an error the colour stays. */
    method Assign(key: Key, backgrounds: seq<Rgb>, endpoint: Rgb) returns (ok: bool)
      requires key in mode
      modifies this
      ensures var fixed := Fix(legible, old(mode), key, backgrounds, endpoint);
              ok == fixed.Some? && mode == if ok then fixed.value else old(mode)
    {
      var c := FindReadable(legible, mode[key], backgrounds, endpoint);
      if c.None? {
        return false;
      }
      mode := mode[key := c.value];
      return true;
    }

    /** Corrects the colours in place. */
    method Prepare() returns (ok: bool)
      requires Complete(mode)
      modifies this
      ensures ok == Prepared(legible, old(mode)).Some?
      ensures ok ==> mode == Prepared(legible, old(mode)).value
    {
      var surfaces := Surfaces(mode);
      ok := Assign(OnSurface, surfaces, WHITE);
      if !ok {
        return;
      }
      ok := Assign(OnSurfaceVariant, surfaces, mode[OnSurface]);
      if !ok {
        return;
      }
      ok := PrepareRoles();
      if ok {
        mode := Hovered(mode);
      }
    }

    /** The loop over the roles. */
    method PrepareRoles() returns (ok: bool)
      requires Complete(mode)
      modifies this
      ensures ok == FixRoles(legible, old(mode), ROLES).Some?
      ensures ok ==> mode == FixRoles(legible, old(mode), ROLES).value
    {
      var roles := ROLES;
      for i := 0 to |roles|
        invariant Complete(mode)
        invariant FixRoles(legible, old(mode), ROLES) == FixRoles(legible, mode, roles[i..])
      {
        assert roles[i..][1..] == roles[i + 1..];
        ok := Assign(Fill(roles[i]), Surfaces(mode), mode[OnSurface]);
        if !ok {
          return;
        }
        ok := Assign(Text(roles[i]), [mode[Fill(roles[i])]], BLACK);
        if !ok {
          return;
        }
      }
      return true;
    }
  }
}
