/** The image changes of a deployment: the difference between two manifests' images. */
module DeploymentImages {
  import opened Options
  import opened Orders

  /** Service to container to image reference. */
  type Images = map<string, map<string, string>>

  /** A manifest's service, its images in the order they are listed. */
  datatype Service = Service(name: string, images: seq<(string, string)>)

  function Put(m: Images, service: string, container: string, reference: string): Images {
    m[service := (if service in m then m[service] else map[])[container := reference]]
  }

  function WithImages(m: Images, service: string, images: seq<(string, string)>): Images {
    if images == [] then m
    else
      var last := images[|images| - 1];
      Put(WithImages(m, service, images[..|images| - 1]), service, last.0, last.1)
  }

  function Merged(services: seq<Service>): Images {
    if services == [] then map[]
    else
      var last := services[|services| - 1];
      WithImages(Merged(services[..|services| - 1]), last.name, last.images)
  }

  /** `_images`: None when a service has no name. */
  method ImagesOf(services: seq<Service>) returns (r: Option<Images>)
    ensures r == if forall s :: s in services ==> s.name != "" then Some(Merged(services)) else None
  {
    var images: Images := map[];
    for i := 0 to |services|
      invariant forall s :: s in services[..i] ==> s.name != ""
      invariant images == Merged(services[..i])
    {
      var s := services[i];
      assert services[..i + 1][..i] == services[..i];
      if s.name == "" { return None; }
      for j := 0 to |s.images|
        invariant images == WithImages(Merged(services[..i]), s.name, s.images[..j])
      {
        assert s.images[..j + 1][..j] == s.images[..j];
        if s.name !in images { images := images[s.name := map[]]; }
        images := images[s.name := images[s.name][s.images[j].0 := s.images[j].1]];
      }
      assert s.images[..|s.images|] == s.images;
    }
    assert services[..|services|] == services;
    r := Some(images);
  }

  /** The last reference listed for a container under a service's name. */
  function LastListed(services: seq<Service>, s: string, c: string): Option<string> {
    if services == [] then None
    else
      var last := services[|services| - 1];
      if last.name == s && LastIn(last.images, c).Some? then LastIn(last.images, c)
      else LastListed(services[..|services| - 1], s, c)
  }

  function LastIn(images: seq<(string, string)>, c: string): Option<string> {
    if images == [] then None
    else if images[|images| - 1].0 == c then Some(images[|images| - 1].1)
    else LastIn(images[..|images| - 1], c)
  }

  lemma {:induction false} WithImagesIs(m: Images, service: string, images: seq<(string, string)>, s: string, c: string)
    ensures At(WithImages(m, service, images), s, c) ==
              if s == service && LastIn(images, c).Some? then LastIn(images, c) else At(m, s, c)
  {
    if images != [] { WithImagesIs(m, service, images[..|images| - 1], s, c); }
  }

  /** The merged images are the last listed ones. */
  lemma {:induction false} MergedIs(services: seq<Service>, s: string, c: string)
    ensures At(Merged(services), s, c) == LastListed(services, s, c)
  {
    if services != [] {
      var front, last := services[..|services| - 1], services[|services| - 1];
      MergedIs(front, s, c);
      WithImagesIs(Merged(front), last.name, last.images, s, c);
    }
  }

  /** No service is listed without an image. */
  predicate Tight(m: Images) { forall s :: s in m ==> m[s] != map[] }

  lemma {:induction false} WithImagesTight(m: Images, service: string, images: seq<(string, string)>)
    requires Tight(m)
    ensures Tight(WithImages(m, service, images))
  {
    if images != [] {
      var front, last := images[..|images| - 1], images[|images| - 1];
      WithImagesTight(m, service, front);
      var inner := WithImages(m, service, front);
      assert last.0 in (if service in inner then inner[service] else map[])[last.0 := last.1];
    }
  }

  lemma {:induction false} MergedTight(services: seq<Service>)
    ensures Tight(Merged(services))
  {
    if services != [] {
      MergedTight(services[..|services| - 1]);
      WithImagesTight(Merged(services[..|services| - 1]), services[|services| - 1].name,
                      services[|services| - 1].images);
    }
  }

  /* ----- versions and labels ----- */

  function Before(s: string, ch: char): string { if s == "" || s[0] == ch then "" else [s[0]] + Before(s[1..], ch) }

  /** What follows the last occurrence, or everything. */
  function AfterLast(s: string, ch: char): string {
    if ch !in s then s else AfterLast(s[1..], ch)
  }

  function Version(reference: string): string {
    var segment := AfterLast(Before(reference, '@'), '/');
    if ':' in segment then AfterLast(segment, ':') else "untagged"
  }

  lemma {:induction false} BeforeIs(s: string, ch: char) returns (rest: string)
    ensures s == Before(s, ch) + rest && ch !in Before(s, ch) && (rest != "" ==> rest[0] == ch)
  {
    if s == "" || s[0] == ch {
      rest := s;
      assert "" + s == s;
    } else {
      rest := BeforeIs(s[1..], ch);
      assert s == [s[0]] + s[1..];
    }
  }

  lemma {:induction false} AfterLastIs(s: string, ch: char) returns (front: string)
    ensures s == front + AfterLast(s, ch) && ch !in AfterLast(s, ch)
    ensures if ch in s then front != "" && front[|front| - 1] == ch else front == ""
  {
    if ch !in s {
      front := "";
    } else {
      front := AfterLastIs(s[1..], ch);
      assert s == [s[0]] + s[1..];
      front := [s[0]] + front;
    }
  }

  /** The tag of a reference: of what stands before any digest, the last segment, and in it what follows
      the last colon. */
  lemma VersionIs(reference: string) returns (path: string, segment: string, digest: string)
    ensures reference == path + segment + digest && '@' !in path + segment && (digest != "" ==> digest[0] == '@')
    ensures '/' !in segment && (path != "" ==> path[|path| - 1] == '/')
    ensures if ':' in segment then
              exists name, tag :: segment == name + ":" + tag && ':' !in tag && Version(reference) == tag
            else Version(reference) == "untagged"
  {
    digest := BeforeIs(reference, '@');
    path := AfterLastIs(Before(reference, '@'), '/');
    segment := AfterLast(Before(reference, '@'), '/');
    if ':' in segment {
      var front := AfterLastIs(segment, ':');
      assert front == front[..|front| - 1] + ":";
      assert segment == front[..|front| - 1] + ":" + AfterLast(segment, ':');
    }
  }

  function Label(service: string, container: string): string {
    if service == container then service else service + "/" + container
  }

  datatype Change =
    | Added(name: string, to: string, reference: string)
    | Removed(name: string, from: string)
    | Updated(name: string, from: string, to: string, reference: string)
    | Repinned(name: string, to: string, reference: string)

  function ChangeOf(name: string, was: Option<string>, now: Option<string>): Option<Change> {
    if was == now then None
    else if was.None? then Some(Added(name, Version(now.value), now.value))
    else if now.None? then Some(Removed(name, Version(was.value)))
    else if Version(was.value) != Version(now.value) then
        Some(Updated(name, Version(was.value), Version(now.value), now.value))
    else Some(Repinned(name, Version(now.value), now.value))
  }

  function ImagesIn(m: Images, service: string): map<string, string> { if service in m then m[service] else map[] }

  function At(m: Images, service: string, container: string): Option<string> { Get(ImagesIn(m, service), container) }

  function ServiceChanges(service: string, containers: seq<string>, before: map<string, string>,
                          after: map<string, string>): seq<Change> {
    if containers == [] then []
    else
      var front, c := containers[..|containers| - 1], containers[|containers| - 1];
      var change := ChangeOf(Label(service, c), Get(before, c), Get(after, c));
      ServiceChanges(service, front, before, after) + if change.Some? then [change.value] else []
  }

  ghost function ChangesFor(previous: Images, current: Images, service: string): seq<Change> {
    var before, after := ImagesIn(previous, service), ImagesIn(current, service);
    ServiceChanges(service, Ascending(before.Keys + after.Keys), before, after)
  }

  ghost function ChangesOver(previous: Images, current: Images, services: seq<string>): seq<Change> {
    if services == [] then []
    else
      ChangesOver(previous, current, services[..|services| - 1]) +
      ChangesFor(previous, current, services[|services| - 1])
  }

  ghost function Changes(previous: Images, current: Images): seq<Change> {
    ChangesOver(previous, current, Ascending(previous.Keys + current.Keys))
  }

  /** The branches for one container. */
  method ImageChange(name: string, was: Option<string>, now: Option<string>) returns (r: Option<Change>)
    ensures r == ChangeOf(name, was, now)
  {
    if was == now { return None; }
    if was.None? { return Some(Added(name, Version(now.value), now.value)); }
    if now.None? { return Some(Removed(name, Version(was.value))); }
    if Version(was.value) != Version(now.value) {
      return Some(Updated(name, Version(was.value), Version(now.value), now.value));
    }
    r := Some(Repinned(name, Version(now.value), now.value));
  }

  lemma ServiceChangesStep(service: string, containers: seq<string>, before: map<string, string>,
                           after: map<string, string>, j: nat)
    requires j < |containers|
    ensures var change := ChangeOf(Label(service, containers[j]), Get(before, containers[j]),
                                   Get(after, containers[j]));
            ServiceChanges(service, containers[..j + 1], before, after) ==
              ServiceChanges(service, containers[..j], before, after) + if change.Some? then [change.value] else []
  {
    assert containers[..j + 1][..j] == containers[..j];
  }

  method ServiceImageChanges(service: string, containers: seq<string>, before: map<string, string>,
                             after: map<string, string>)
    returns (changes: seq<Change>)
    ensures changes == ServiceChanges(service, containers, before, after)
  {
    changes := [];
    for j := 0 to |containers|
      invariant changes == ServiceChanges(service, containers[..j], before, after)
    {
      ServiceChangesStep(service, containers, before, after, j);
      var c := containers[j];
      var change := ImageChange(Label(service, c), Get(before, c), Get(after, c));
      if change.Some? { changes := changes + [change.value]; }
    }
    assert containers[..|containers|] == containers;
  }

  lemma ChangesOverStep(previous: Images, current: Images, services: seq<string>, i: nat)
    requires i < |services|
    ensures ChangesOver(previous, current, services[..i + 1]) ==
              ChangesOver(previous, current, services[..i]) + ChangesFor(previous, current, services[i])
  {
    assert services[..i + 1][..i] == services[..i];
  }

  method ChangesAcross(previous: Images, current: Images, services: seq<string>) returns (changes: seq<Change>)
    ensures changes == ChangesOver(previous, current, services)
  {
    changes := [];
    for i := 0 to |services|
      invariant changes == ChangesOver(previous, current, services[..i])
    {
      ChangesOverStep(previous, current, services, i);
      var before, after := ImagesIn(previous, services[i]), ImagesIn(current, services[i]);
      var containers := Sorted(before.Keys + after.Keys);
      var more := ServiceImageChanges(services[i], containers, before, after);
      changes := changes + more;
    }
    assert services[..|services|] == services;
  }

  /** `deployment_image_changes`. */
  method DeploymentImageChanges(previous: Images, current: Images) returns (changes: seq<Change>)
    ensures changes == Changes(previous, current)
  {
    var services := Sorted(previous.Keys + current.Keys);
    changes := ChangesAcross(previous, current, services);
  }

  /* ----- what is reported ----- */

  lemma {:induction false} ServiceMember(service: string, cs: seq<string>, before: map<string, string>,
                                          after: map<string, string>, x: Change)
    ensures x in ServiceChanges(service, cs, before, after) <==>
              exists c :: c in cs && ChangeOf(Label(service, c), Get(before, c), Get(after, c)) == Some(x)
  {
    if cs != [] {
      var front, last := cs[..|cs| - 1], cs[|cs| - 1];
      assert cs == front + [last];
      ServiceMember(service, front, before, after, x);
    }
  }

  /** The change is that of this container of this service. */
  predicate Moves(previous: Images, current: Images, service: string, container: string, x: Change) {
    ChangeOf(Label(service, container), At(previous, service, container), At(current, service, container)) == Some(x)
  }

  lemma ForMember(previous: Images, current: Images, service: string, x: Change)
    ensures x in ChangesFor(previous, current, service) <==> exists c :: Moves(previous, current, service, c, x)
  {
    var before, after := ImagesIn(previous, service), ImagesIn(current, service);
    ServiceMember(service, Ascending(before.Keys + after.Keys), before, after, x);
    if c :| Moves(previous, current, service, c, x) {
      assert c in Ascending(before.Keys + after.Keys);
      assert ChangeOf(Label(service, c), Get(before, c), Get(after, c)) == Some(x);
    }
    if x in ChangesFor(previous, current, service) {
      var c :| c in Ascending(before.Keys + after.Keys) &&
          ChangeOf(Label(service, c), Get(before, c), Get(after, c)) == Some(x);
      assert Moves(previous, current, service, c, x);
    }
  }

  lemma {:induction false} OverMember(previous: Images, current: Images, services: seq<string>, x: Change)
    ensures x in ChangesOver(previous, current, services) <==>
              exists s, c :: s in services && Moves(previous, current, s, c, x)
  {
    if services != [] {
      var front, last := services[..|services| - 1], services[|services| - 1];
      assert services == front + [last];
      OverMember(previous, current, front, x);
      ForMember(previous, current, last, x);
    }
  }

  ghost predicate Moved(previous: Images, current: Images, x: Change) {
    exists s, c :: Moves(previous, current, s, c, x)
  }

  /** One entry for every image that was added, removed, or given another reference, and no other. */
  lemma ChangesExactly(previous: Images, current: Images, x: Change)
    ensures x in Changes(previous, current) <==> Moved(previous, current, x)
  {
    var services := Ascending(previous.Keys + current.Keys);
    OverMember(previous, current, services, x);
    if s, c :| Moves(previous, current, s, c, x) { assert s in services; }
  }

  lemma ReportedMeansDifferent(previous: Images, current: Images)
    requires Changes(previous, current) != []
    ensures previous != current
  {
    var x := Changes(previous, current)[0];
    ChangesExactly(previous, current, x);
    var s, c :| Moves(previous, current, s, c, x);
    ChangeIs(Label(s, c), At(previous, s, c), At(current, s, c));
  }

  lemma DifferentMeansReported(previous: Images, current: Images)
    requires Tight(previous) && Tight(current) && previous != current
    ensures Changes(previous, current) != []
  {
    var s, c := SomewhereMoved(previous, current);
    var x := MovedTo(previous, current, s, c);
  }

  /** Nothing is reported exactly when the images are the same. */
  lemma NoChangesExactly(previous: Images, current: Images)
    requires Tight(previous) && Tight(current)
    ensures Changes(previous, current) == [] <==> previous == current
  {
    if Changes(previous, current) != [] { ReportedMeansDifferent(previous, current); }
    if previous != current { DifferentMeansReported(previous, current); }
  }

  /** Two manifests report nothing exactly when they list the same images. */
  lemma ManifestsUnchanged(previous: seq<Service>, current: seq<Service>)
    ensures Changes(Merged(previous), Merged(current)) == [] <==> Merged(previous) == Merged(current)
  {
    MergedTight(previous);
    MergedTight(current);
    NoChangesExactly(Merged(previous), Merged(current));
  }

  lemma SomewhereMoved(a: Images, b: Images) returns (s: string, c: string)
    requires Tight(a) && Tight(b) && a != b
    ensures At(a, s, c) != At(b, s, c)
  {
    if k :| k in a && k !in b {
      s := k;
      c :| c in a[s];
    } else if k :| k in b && k !in a {
      s := k;
      c :| c in b[s];
    } else {
      assert a.Keys == b.Keys;
      s :| s in a && a[s] != b[s];
      if k :| k in a[s] && k !in b[s] {
        c := k;
      } else if k :| k in b[s] && k !in a[s] {
        c := k;
      } else {
        assert a[s].Keys == b[s].Keys;
        c :| c in a[s] && a[s][c] != b[s][c];
      }
    }
  }

  /* ----- the difference is faithful ----- */

  predicate Plain(s: string) { '/' !in s }

  predicate Clean(m: Images) { forall s :: s in m ==> Plain(s) && forall c :: c in m[s] ==> Plain(c) }

  lemma {:induction false} SlashSplits(a: string, b: string, c: string, d: string)
    requires Plain(a) && Plain(c) && a + "/" + b == c + "/" + d
    ensures a == c && b == d
  {
    var s, t := a + "/" + b, c + "/" + d;
    assert s[|a|] == '/' && t[|c|] == '/';
    assert forall i :: 0 <= i < |a| ==> s[i] == a[i] && s[i] != '/';
    assert forall i :: 0 <= i < |c| ==> t[i] == c[i] && t[i] != '/';
    assert |a| == |c|;
    assert s[..|a|] == a && t[..|c|] == c && s[|a| + 1..] == b && t[|c| + 1..] == d;
  }

  /** Names without a slash are told apart by their labels. */
  lemma LabelsApart(s: string, c: string, t: string, d: string)
    requires Plain(s) && Plain(c) && Plain(t) && Plain(d) && Label(s, c) == Label(t, d)
    ensures s == t && c == d
  {
    assert s != c ==> Label(s, c)[|s|] == '/';
    assert t != d ==> Label(t, d)[|t|] == '/';
    if s != c && t != d { SlashSplits(s, c, t, d); }
  }

  /** An image map as the report names it. */
  ghost function Labelled(m: Images): map<string, string>
    requires Clean(m)
  {
    var names := set s, c | s in m && c in m[s] :: Label(s, c);
    map n | n in names :: ImageNamed(m, n)
  }

  ghost function ImageNamed(m: Images, name: string): string
    requires exists s, c :: s in m && c in m[s] && Label(s, c) == name
  {
    var s, c :| s in m && c in m[s] && Label(s, c) == name;
    m[s][c]
  }

  lemma LabelledAt(m: Images, s: string, c: string)
    requires Clean(m) && Plain(s) && Plain(c)
    ensures Get(Labelled(m), Label(s, c)) == At(m, s, c)
  {
    var name := Label(s, c);
    if name in Labelled(m) {
      var t, d :| t in m && d in m[t] && Label(t, d) == name && ImageNamed(m, name) == m[t][d];
      LabelsApart(s, c, t, d);
    }
    assert s in m && c in m[s] ==> Label(s, c) in Labelled(m);
  }

  /** Carrying out the changes on a labelled map. */
  function Patched(m: map<string, string>, changes: seq<Change>): map<string, string> {
    if changes == [] then m
    else
      var before, last := Patched(m, changes[..|changes| - 1]), changes[|changes| - 1];
      if last.Removed? then before - {last.name} else before[last.name := last.reference]
  }

  function Effect(x: Change): Option<string> { if x.Removed? then None else Some(x.reference) }

  /** Every change of this name has the same effect. */
  ghost predicate Agree(changes: seq<Change>, name: string, effect: Option<string>) {
    forall x :: x in changes && x.name == name ==> Effect(x) == effect
  }

  lemma {:induction false} PatchedAt(m: map<string, string>, changes: seq<Change>, name: string, effect: Option<string>)
    requires Agree(changes, name, effect)
    ensures Get(Patched(m, changes), name) == if exists x :: x in changes && x.name == name then effect
            else Get(m, name)
  {
    if changes != [] {
      var front, last := changes[..|changes| - 1], changes[|changes| - 1];
      assert changes == front + [last];
      PatchedAt(m, front, name, effect);
    }
  }

  lemma ChangeIs(name: string, was: Option<string>, now: Option<string>)
    ensures was == now ==> ChangeOf(name, was, now).None?
    ensures was != now ==> ChangeOf(name, was, now).Some? && ChangeOf(name, was, now).value.name == name
                           && Effect(ChangeOf(name, was, now).value) == now
  {
  }

  lemma CleanAt(m: Images, s: string, c: string)
    requires Clean(m) && At(m, s, c).Some?
    ensures Plain(s) && Plain(c)
  {
  }

  lemma NamedFrom(previous: Images, current: Images, x: Change) returns (s: string, c: string)
    requires Clean(previous) && Clean(current) && x in Changes(previous, current)
    ensures Plain(s) && Plain(c) && x.name == Label(s, c) && At(previous, s, c) != At(current, s, c) &&
            Effect(x) == At(current, s, c)
  {
    ChangesExactly(previous, current, x);
    s, c :| Moves(previous, current, s, c, x);
    ChangeIs(Label(s, c), At(previous, s, c), At(current, s, c));
    if At(previous, s, c).Some? { CleanAt(previous, s, c); } else { CleanAt(current, s, c); }
  }

  /** An image that moved has a change under its label, with what it moved to. */
  lemma MovedTo(previous: Images, current: Images, s: string, c: string) returns (x: Change)
    requires At(previous, s, c) != At(current, s, c)
    ensures x in Changes(previous, current) && x.name == Label(s, c) && Effect(x) == At(current, s, c)
  {
    ChangeIs(Label(s, c), At(previous, s, c), At(current, s, c));
    x := ChangeOf(Label(s, c), At(previous, s, c), At(current, s, c)).value;
    assert Moves(previous, current, s, c, x);
    ChangesExactly(previous, current, x);
  }

  lemma RebuiltAt(previous: Images, current: Images, s: string, c: string)
    requires Clean(previous) && Clean(current) && Plain(s) && Plain(c)
    ensures Get(Patched(Labelled(previous), Changes(previous, current)), Label(s, c)) == At(current, s, c)
  {
    var changes, name := Changes(previous, current), Label(s, c);
    forall x | x in changes && x.name == name ensures Effect(x) == At(current, s, c) &&
        At(previous, s, c) != At(current, s, c) {
      var t, d := NamedFrom(previous, current, x);
      LabelsApart(s, c, t, d);
    }
    PatchedAt(Labelled(previous), changes, name, At(current, s, c));
    LabelledAt(previous, s, c);
    if At(previous, s, c) != At(current, s, c) { var x := MovedTo(previous, current, s, c); }
  }

  lemma NameOnlyWhereLabelled(previous: Images, current: Images, name: string)
    requires Clean(previous) && Clean(current)
    requires forall s, c :: Plain(s) && Plain(c) ==> Label(s, c) != name
    ensures Get(Patched(Labelled(previous), Changes(previous, current)), name) == None &&
            Get(Labelled(current), name) == None
  {
    forall x | x in Changes(previous, current) ensures x.name != name { var s, c := NamedFrom(previous, current, x); }
    PatchedAt(Labelled(previous), Changes(previous, current), name, None);
  }

  /** Carried out on the previous images, the changes rebuild the current ones exactly. */
  lemma ChangesRebuild(previous: Images, current: Images)
    requires Clean(previous) && Clean(current)
    ensures Patched(Labelled(previous), Changes(previous, current)) == Labelled(current)
  {
    var patched, wanted := Patched(Labelled(previous), Changes(previous, current)), Labelled(current);
    forall name ensures Get(patched, name) == Get(wanted, name) {
      if s, c :| Plain(s) && Plain(c) && Label(s, c) == name {
        RebuiltAt(previous, current, s, c);
        LabelledAt(current, s, c);
      } else {
        NameOnlyWhereLabelled(previous, current, name);
      }
    }
    SameMap(patched, wanted);
  }

  lemma SameMap(a: map<string, string>, b: map<string, string>)
    requires forall k :: Get(a, k) == Get(b, k)
    ensures a == b
  {
    forall k ensures k in a <==> k in b && (k in a ==> a[k] == b[k]) { assert Get(a, k) == Get(b, k); }
  }

  /* ----- when a label repeats ----- */

  /** One name runs into the other: the second service is the first, a slash and the front of the
      first's container, whose remainder is the second's container. */
  predicate Overlaps(s: string, c: string, t: string, d: string) {
    s != c && t != d && s + "/" <= t && c == t[|s| + 1..] + "/" + d
  }

  /** A service named like its container, which is the other's joined name. */
  predicate Joined(s: string, c: string, t: string, d: string) { s == c && t != d && s == t + "/" + d }

  predicate Meet(s: string, c: string, t: string, d: string) {
    Overlaps(s, c, t, d) || Overlaps(t, d, s, c) || Joined(s, c, t, d) || Joined(t, d, s, c)
  }

  lemma OverlapsLonger(s: string, c: string, t: string, d: string)
    requires Overlaps(s, c, t, d)
    ensures |s| < |t| && !Plain(t)
  {
    assert (s + "/")[|s|] == '/' && t[|s|] == (s + "/")[|s|];
  }

  lemma JoinedSlash(s: string, c: string, t: string, d: string)
    requires Joined(s, c, t, d)
    ensures !Plain(s)
  {
    assert s[|t|] == '/';
  }

  /** Two joined names that are equal are one pair, or the shorter service stands in the longer. */
  lemma JoinedNamesEqual(s: string, c: string, t: string, d: string)
    requires s != c && t != d && |s| <= |t|
    ensures s + "/" + c == t + "/" + d <==> (s == t && c == d) || Overlaps(s, c, t, d)
  {
    var x, y := s + "/" + c, t + "/" + d;
    if x == y {
      assert x[..|s|] == s && x[|s|] == '/' && x[|s| + 1..] == c;
      assert y[..|t|] == t && y[|t|] == '/' && y[|t| + 1..] == d;
      if |s| < |t| {
        assert t == y[..|t|] == x[..|t|];
        assert t[..|s| + 1] == s + "/";
        assert c == x[|s| + 1..|t|] + x[|t|..];
        assert x[|s| + 1..|t|] == t[|s| + 1..] && x[|t|..] == "/" + d;
      }
    }
    if Overlaps(s, c, t, d) {
      assert t == s + "/" + t[|s| + 1..];
      assert x == s + "/" + (t[|s| + 1..] + "/" + d);
      assert x == y;
    }
  }

  /** Two images share a label exactly when they are one image or their names meet so. */
  lemma LabelsMeet(s: string, c: string, t: string, d: string)
    ensures Label(s, c) == Label(t, d) <==> (s == t && c == d) || Meet(s, c, t, d)
  {
    if s != c && t != d {
      if |s| <= |t| {
        JoinedNamesEqual(s, c, t, d);
        if Overlaps(t, d, s, c) { OverlapsLonger(t, d, s, c); }
      } else {
        JoinedNamesEqual(t, d, s, c);
        if Overlaps(s, c, t, d) { OverlapsLonger(s, c, t, d); }
      }
    }
  }

  function NamesOf(changes: seq<Change>): seq<string> {
    seq(|changes|, i requires 0 <= i < |changes| => changes[i].name)
  }

  /** The image a change is about. */
  type Place = (string, string)

  predicate MovedAt(previous: Images, current: Images, p: Place) { At(previous, p.0, p.1) != At(current, p.0, p.1) }

  function ServicePlaces(service: string, cs: seq<string>, before: map<string, string>,
                         after: map<string, string>): seq<Place> {
    if cs == [] then []
    else
      var front, c := cs[..|cs| - 1], cs[|cs| - 1];
      ServicePlaces(service, front, before, after) + if Get(before, c) != Get(after, c) then [(service, c)] else []
  }

  ghost function PlacesFor(previous: Images, current: Images, service: string): seq<Place> {
    var before, after := ImagesIn(previous, service), ImagesIn(current, service);
    ServicePlaces(service, Ascending(before.Keys + after.Keys), before, after)
  }

  ghost function PlacesOver(previous: Images, current: Images, services: seq<string>): seq<Place> {
    if services == [] then []
    else
      PlacesOver(previous, current, services[..|services| - 1]) +
      PlacesFor(previous, current, services[|services| - 1])
  }

  /** The images that moved, in the order they are reported. */
  ghost function Places(previous: Images, current: Images): seq<Place> {
    PlacesOver(previous, current, Ascending(previous.Keys + current.Keys))
  }

  function LabelsOf(places: seq<Place>): seq<string> {
    seq(|places|, i requires 0 <= i < |places| => Label(places[i].0, places[i].1))
  }

  lemma NamesJoin(a: seq<Change>, b: seq<Change>, p: seq<Place>, q: seq<Place>)
    requires NamesOf(a) == LabelsOf(p) && NamesOf(b) == LabelsOf(q)
    ensures NamesOf(a + b) == LabelsOf(p + q)
  {
    assert NamesOf(a + b) == NamesOf(a) + NamesOf(b);
    assert LabelsOf(p + q) == LabelsOf(p) + LabelsOf(q);
  }

  lemma {:induction false} ServiceNames(service: string, cs: seq<string>, before: map<string, string>,
                                        after: map<string, string>)
    ensures NamesOf(ServiceChanges(service, cs, before, after)) == LabelsOf(ServicePlaces(service, cs, before, after))
  {
    if cs != [] {
      var front, c := cs[..|cs| - 1], cs[|cs| - 1];
      ServiceNames(service, front, before, after);
      ChangeIs(Label(service, c), Get(before, c), Get(after, c));
      var change := ChangeOf(Label(service, c), Get(before, c), Get(after, c));
      NamesJoin(ServiceChanges(service, front, before, after), if change.Some? then [change.value] else [],
                ServicePlaces(service, front, before, after), if change.Some? then [(service, c)] else []);
    }
  }

  lemma {:induction false} OverNames(previous: Images, current: Images, services: seq<string>)
    ensures NamesOf(ChangesOver(previous, current, services)) == LabelsOf(PlacesOver(previous, current, services))
  {
    if services != [] {
      var front, last := services[..|services| - 1], services[|services| - 1];
      var before, after := ImagesIn(previous, last), ImagesIn(current, last);
      OverNames(previous, current, front);
      ServiceNames(last, Ascending(before.Keys + after.Keys), before, after);
      NamesJoin(ChangesOver(previous, current, front), ChangesFor(previous, current, last),
                PlacesOver(previous, current, front), PlacesFor(previous, current, last));
    }
  }

  lemma PlacesJoin(a: seq<Place>, b: seq<Place>)
    requires Distinct(a) && Distinct(b) && forall x, y :: x in a && y in b ==> x != y
    ensures Distinct(a + b)
  {
    forall i, j | 0 <= i < j < |a + b| ensures (a + b)[i] != (a + b)[j] {
      if i < |a| <= j { assert a[i] in a && b[j - |a|] in b; }
    }
  }

  /** Each container that moved, once. */
  lemma {:induction false} ServicePlacesAre(service: string, cs: seq<string>, before: map<string, string>,
                                            after: map<string, string>)
    requires Distinct(cs)
    ensures var ps := ServicePlaces(service, cs, before, after);
            Distinct(ps) && forall p :: p in ps <==> p.0 == service && p.1 in cs && Get(before, p.1) != Get(after, p.1)
  {
    if cs != [] {
      var front, c := cs[..|cs| - 1], cs[|cs| - 1];
      assert cs == front + [c] && c !in front;
      ServicePlacesAre(service, front, before, after);
      PlacesJoin(ServicePlaces(service, front, before, after),
                 if Get(before, c) != Get(after, c) then [(service, c)] else []);
    }
  }

  lemma PlacesForAre(previous: Images, current: Images, service: string)
    ensures var ps := PlacesFor(previous, current, service);
            Distinct(ps) && forall p :: p in ps <==> p.0 == service && MovedAt(previous, current, p)
  {
    var before, after := ImagesIn(previous, service), ImagesIn(current, service);
    var cs := Ascending(before.Keys + after.Keys);
    IncreasingDistinct(cs);
    ServicePlacesAre(service, cs, before, after);
  }

  lemma {:induction false} PlacesOverAre(previous: Images, current: Images, services: seq<string>)
    requires Distinct(services)
    ensures var ps := PlacesOver(previous, current, services);
            Distinct(ps) && forall p :: p in ps <==> p.0 in services && MovedAt(previous, current, p)
  {
    if services != [] {
      var front, last := services[..|services| - 1], services[|services| - 1];
      assert services == front + [last] && last !in front;
      PlacesOverAre(previous, current, front);
      PlacesForAre(previous, current, last);
      PlacesJoin(PlacesOver(previous, current, front), PlacesFor(previous, current, last));
    }
  }

  /** The reported images are exactly those that moved, each once, and the labels are theirs. */
  lemma PlacesAre(previous: Images, current: Images)
    ensures var ps := Places(previous, current);
            && Distinct(ps) && (forall p :: p in ps <==> MovedAt(previous, current, p))
            && NamesOf(Changes(previous, current)) == LabelsOf(ps)
  {
    var services := Ascending(previous.Keys + current.Keys);
    IncreasingDistinct(services);
    PlacesOverAre(previous, current, services);
    OverNames(previous, current, services);
    forall p | MovedAt(previous, current, p) ensures p.0 in services {}
  }

  /** Two images that moved and whose names meet. */
  ghost predicate Collision(previous: Images, current: Images) {
    exists p: Place, q: Place :: MovedAt(previous, current, p) && MovedAt(previous, current, q) &&
        Meet(p.0, p.1, q.0, q.1)
  }

  lemma LabelsDistinct(places: seq<Place>)
    requires Distinct(places)
    ensures Distinct(LabelsOf(places)) <==>
              forall p, q :: p in places && q in places && p != q ==> Label(p.0, p.1) != Label(q.0, q.1)
  {
    if Distinct(LabelsOf(places)) {
      forall p, q | p in places && q in places && p != q ensures Label(p.0, p.1) != Label(q.0, q.1) {
        PlacesApart(places, p, q);
      }
    }
  }

  lemma PlacesApart(places: seq<Place>, p: Place, q: Place)
    requires Distinct(LabelsOf(places)) && p in places && q in places && p != q
    ensures Label(p.0, p.1) != Label(q.0, q.1)
  {
    var i :| 0 <= i < |places| && places[i] == p;
    var j :| 0 <= j < |places| && places[j] == q;
    assert LabelsOf(places)[i] != LabelsOf(places)[j];
  }

  /** No two changes carry one label if and only if no two images that moved have names that meet. */
  lemma LabelsUniqueExactly(previous: Images, current: Images)
    ensures Distinct(NamesOf(Changes(previous, current))) <==> !Collision(previous, current)
  {
    var ps := Places(previous, current);
    PlacesAre(previous, current);
    LabelsDistinct(ps);
    forall p: Place, q: Place
      ensures Label(p.0, p.1) == Label(q.0, q.1) <==> p == q || Meet(p.0, p.1, q.0, q.1)
    {
      LabelsMeet(p.0, p.1, q.0, q.1);
    }
    forall p: Place, q: Place | Meet(p.0, p.1, q.0, q.1) ensures p != q { MeetApart(p.0, p.1, q.0, q.1); }
  }

  lemma MeetApart(s: string, c: string, t: string, d: string)
    requires Meet(s, c, t, d)
    ensures (s, c) != (t, d)
  {
    if Overlaps(s, c, t, d) { OverlapsLonger(s, c, t, d); }
    if Overlaps(t, d, s, c) { OverlapsLonger(t, d, s, c); }
  }

  lemma MeetHasSlash(s: string, c: string, t: string, d: string)
    requires Meet(s, c, t, d)
    ensures !Plain(s) || !Plain(t)
  {
    if Overlaps(s, c, t, d) { OverlapsLonger(s, c, t, d); }
    else if Overlaps(t, d, s, c) { OverlapsLonger(t, d, s, c); }
    else if Joined(s, c, t, d) { JoinedSlash(s, c, t, d); }
    else { JoinedSlash(t, d, s, c); }
  }

  lemma CleanPlace(previous: Images, current: Images, p: Place)
    requires Clean(previous) && Clean(current) && MovedAt(previous, current, p)
    ensures Plain(p.0) && Plain(p.1)
  {
    if At(previous, p.0, p.1).Some? { CleanAt(previous, p.0, p.1); } else { CleanAt(current, p.0, p.1); }
  }

  /** Service and container names without a slash: no two changes carry one label. */
  lemma LabelsUnique(previous: Images, current: Images)
    requires Clean(previous) && Clean(current)
    ensures Distinct(NamesOf(Changes(previous, current)))
  {
    if Collision(previous, current) {
      var p: Place, q: Place :| MovedAt(previous, current, p) && MovedAt(previous, current, q) &&
          Meet(p.0, p.1, q.0, q.1);
      CleanPlace(previous, current, p);
      CleanPlace(previous, current, q);
      MeetHasSlash(p.0, p.1, q.0, q.1);
    }
    LabelsUniqueExactly(previous, current);
  }

  lemma CollisionOf(previous: Images, current: Images, p: Place, q: Place)
    requires MovedAt(previous, current, p) && MovedAt(previous, current, q) && Meet(p.0, p.1, q.0, q.1)
    ensures !Distinct(NamesOf(Changes(previous, current)))
  {
    LabelsUniqueExactly(previous, current);
  }

  lemma SlashedNamesMeet()
    ensures Meet("a", "b/c", "a/b", "c")
  {
    assert "a" + "/" <= "a/b";
    assert "a/b"[2..] + "/" + "c" == "b/c";
  }

  /** With a slash in a name two images can share a label, and the report no longer tells them apart. */
  lemma SlashCollides(one: string, other: string)
    ensures !Distinct(NamesOf(Changes(map[], map["a" := map["b/c" := one], "a/b" := map["c" := other]])))
  {
    var current := map["a" := map["b/c" := one], "a/b" := map["c" := other]];
    assert At(current, "a", "b/c") == Some(one) && At(current, "a/b", "c") == Some(other);
    assert MovedAt(map[], current, ("a", "b/c")) && MovedAt(map[], current, ("a/b", "c"));
    SlashedNamesMeet();
    CollisionOf(map[], current, ("a", "b/c"), ("a/b", "c"));
  }

  /* ----- the whole report ----- */

  /** The entry says what became of this image. */
  predicate Tells(x: Change, s: string, c: string, was: Option<string>, now: Option<string>) {
    x.name == Label(s, c) && was != now &&
    match x
    case Added(_, to, reference) => was.None? && now == Some(reference) && to == Version(reference)
    case Removed(_, from) => now.None? && was.Some? && from == Version(was.value)
    case Updated(_, from, to, reference) =>
      was.Some? && now == Some(reference) && from == Version(was.value) && to == Version(reference) && from != to
    case Repinned(_, to, reference) =>
      was.Some? && now == Some(reference) && to == Version(reference) && to == Version(was.value)
  }

  lemma ChangeTells(s: string, c: string, was: Option<string>, now: Option<string>)
    requires was != now
    ensures ChangeOf(Label(s, c), was, now).Some? && Tells(ChangeOf(Label(s, c), was, now).value, s, c, was, now)
  {
  }

  /** Entry by entry, the changes are those of the places. */
  ghost predicate TellsAll(previous: Images, current: Images, changes: seq<Change>, places: seq<Place>) {
    |changes| == |places| && forall i :: 0 <= i < |changes| ==> TellsPlace(previous, current, changes[i], places[i])
  }

  predicate TellsPlace(previous: Images, current: Images, x: Change, p: Place) {
    Tells(x, p.0, p.1, At(previous, p.0, p.1), At(current, p.0, p.1))
  }

  lemma TellsJoin(previous: Images, current: Images, a: seq<Change>, b: seq<Change>, p: seq<Place>, q: seq<Place>)
    requires TellsAll(previous, current, a, p) && TellsAll(previous, current, b, q)
    ensures TellsAll(previous, current, a + b, p + q)
  {
  }

  lemma {:induction false} ServiceTells(previous: Images, current: Images, service: string, cs: seq<string>)
    ensures var before, after := ImagesIn(previous, service), ImagesIn(current, service);
            TellsAll(previous, current, ServiceChanges(service, cs, before, after),
                     ServicePlaces(service, cs, before, after))
  {
    if cs != [] {
      var front, c := cs[..|cs| - 1], cs[|cs| - 1];
      ServiceTells(previous, current, service, front);
      if At(previous, service, c) != At(current, service, c) {
        ChangeTells(service, c, At(previous, service, c), At(current, service, c));
      }
    }
  }

  lemma {:induction false} OverTells(previous: Images, current: Images, services: seq<string>)
    ensures TellsAll(previous, current, ChangesOver(previous, current, services),
                     PlacesOver(previous, current, services))
  {
    if services != [] {
      var last := services[|services| - 1];
      OverTells(previous, current, services[..|services| - 1]);
      var before, after := ImagesIn(previous, last), ImagesIn(current, last);
      ServiceTells(previous, current, last, Ascending(before.Keys + after.Keys));
      TellsJoin(previous, current,
                ChangesOver(previous, current, services[..|services| - 1]), ChangesFor(previous, current, last),
                PlacesOver(previous, current, services[..|services| - 1]), PlacesFor(previous, current, last));
    }
  }

  /** By service, and by container within one. */
  predicate PlaceLess(p: Place, q: Place) { StrLess(p.0, q.0) || (p.0 == q.0 && StrLess(p.1, q.1)) }

  lemma OrderedJoin(a: seq<Place>, b: seq<Place>)
    requires Increasing(PlaceLess, a) && Increasing(PlaceLess, b) && forall x, y :: x in a && y in b ==> PlaceLess(x, y)
    ensures Increasing(PlaceLess, a + b)
  {
    forall i, j | 0 <= i < j < |a + b| ensures PlaceLess((a + b)[i], (a + b)[j]) {
      if i < |a| <= j { assert a[i] in a && b[j - |a|] in b; }
    }
  }

  lemma FrontIncreasing(names: seq<string>, x: string)
    requires Increasing(StrLess, names) && names != [] && x in names[..|names| - 1]
    ensures StrLess(x, names[|names| - 1]) && Increasing(StrLess, names[..|names| - 1])
  {
    var i :| 0 <= i < |names| - 1 && names[..|names| - 1][i] == x;
    assert StrLess(names[i], names[|names| - 1]);
  }

  lemma {:induction false} ServiceOrdered(service: string, cs: seq<string>, before: map<string, string>,
                                          after: map<string, string>)
    requires Increasing(StrLess, cs)
    ensures Increasing(PlaceLess, ServicePlaces(service, cs, before, after))
  {
    if cs != [] {
      var front, c := cs[..|cs| - 1], cs[|cs| - 1];
      assert Increasing(StrLess, front);
      ServiceOrdered(service, front, before, after);
      IncreasingDistinct(front);
      ServicePlacesAre(service, front, before, after);
      forall p | p in ServicePlaces(service, front, before, after) ensures PlaceLess(p, (service, c)) {
        FrontIncreasing(cs, p.1);
      }
      OrderedJoin(ServicePlaces(service, front, before, after),
                  if Get(before, c) != Get(after, c) then [(service, c)] else []);
    }
  }

  lemma {:induction false} OverOrdered(previous: Images, current: Images, services: seq<string>)
    requires Increasing(StrLess, services)
    ensures Increasing(PlaceLess, PlacesOver(previous, current, services))
  {
    if services != [] {
      var front, last := services[..|services| - 1], services[|services| - 1];
      assert Increasing(StrLess, front);
      OverOrdered(previous, current, front);
      IncreasingDistinct(front);
      PlacesOverAre(previous, current, front);
      PlacesForAre(previous, current, last);
      var before, after := ImagesIn(previous, last), ImagesIn(current, last);
      ServiceOrdered(last, Ascending(before.Keys + after.Keys), before, after);
      forall p, q | p in PlacesOver(previous, current, front) && q in PlacesFor(previous, current, last)
        ensures PlaceLess(p, q)
      {
        FrontIncreasing(services, p.0);
      }
      OrderedJoin(PlacesOver(previous, current, front), PlacesFor(previous, current, last));
    }
  }

  /** The report is the list of the images that moved, by service and then container, each with what
      became of it. */
  lemma ReportExactly(previous: Images, current: Images) returns (places: seq<Place>)
    ensures TellsAll(previous, current, Changes(previous, current), places)
    ensures Increasing(PlaceLess, places) && forall p :: p in places <==> MovedAt(previous, current, p)
  {
    places := Places(previous, current);
    PlacesAre(previous, current);
    OverTells(previous, current, Ascending(previous.Keys + current.Keys));
    OverOrdered(previous, current, Ascending(previous.Keys + current.Keys));
  }
}
