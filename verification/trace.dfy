/** DSP instances, the side of the application that owns them, and the
    observable steps a window takes on them. A window operation is modelled
    as a pure function that returns, besides the new window state, the
    sequence of steps it performed, so that "A happens before B" and
    "exactly one instance is deleted" become statements about that sequence. */
module Trace {

  /** Where an effect (and every instance of it) is computed. */
  datatype Locality = Local | Remote

  /** One DSP instance. `id` stands for the pointer; an instance is
      created for an effect and has the effect's locality. */
  datatype Instance = Instance(id: nat, locality: Locality)

  /** Which of the two images a default window shows. */
  datatype Image = BlueImage | WhiteImage

  datatype Event =
    | SaveWindow                            // save_Window: parameters and connections written
    | Hide
    | Show
    | InitAudio(ok: bool)                   // init_audioClient
    | CreateLocal                           // createDSPInstance
    | CreateRemote                          // createRemoteDSPInstance
    | ResetFactory                          // FLEffect::reset after the factory was lost remotely
    | Reinit(ok: bool)                      // FLEffect::reinit: recompile and upload again
    | InitFade(ok: bool)                    // AudioManager::init_FadeAudio
    | DeleteInterfaces
    | BuildInterfaces(target: Instance, ok: bool)
    | RecallWindow                          // recall_Window: saved parameters restored
    | StartFade
    | WaitEndFade
    | Commit                                // the instance and effect pointers are swapped
    | RunInterface
    | DefaultImage(image: Image)            // print_initWindow
    | SetDsp(ok: bool)                      // AudioManager::setDSP
    | AudioStarted                          // AudioManager::start and connect_Audio
    | AudioStopped
    | DeleteInstance(inst: Instance, deleter: Locality)

  /** Index of the first occurrence of `e` in `t`, or |t| when absent. */
  function IndexOf(t: seq<Event>, e: Event): (i: nat)
    ensures i <= |t|
    ensures i < |t| <==> e in t
    ensures i < |t| ==> t[i] == e
  {
    if |t| == 0 then 0
    else if t[0] == e then 0
    else 1 + IndexOf(t[1..], e)
  }

  /** Both steps happened, and the first `a` came before the first `b`. */
  predicate Before(t: seq<Event>, a: Event, b: Event) {
    a in t && b in t && IndexOf(t, a) < IndexOf(t, b)
  }

  /** How many times step `e` was taken. */
  function Count(t: seq<Event>, e: Event): nat {
    multiset(t)[e]
  }

  lemma CountAppend(a: seq<Event>, b: seq<Event>, e: Event)
    ensures Count(a + b, e) == Count(a, e) + Count(b, e)
  {
    assert multiset(a + b) == multiset(a) + multiset(b);
  }

  /** The instances deleted along `t`, in order. */
  function Deletions(t: seq<Event>): (d: seq<Instance>)
    ensures |d| <= |t|
  {
    if |t| == 0 then []
    else (if t[0].DeleteInstance? then [t[0].inst] else []) + Deletions(t[1..])
  }

  /** Every deletion went through the deleter of the instance's own
      locality (a local instance freed as a local one, and so on). */
  predicate DeletersMatch(t: seq<Event>) {
    forall i :: 0 <= i < |t| && t[i].DeleteInstance? ==> t[i].deleter == t[i].inst.locality
  }

  lemma {:induction false} NoDeletions(t: seq<Event>)
    requires forall i :: 0 <= i < |t| ==> !t[i].DeleteInstance?
    ensures Deletions(t) == []
  {
    if |t| > 0 {
      NoDeletions(t[1..]);
    }
  }

  lemma {:induction false} IndexOfAppend(a: seq<Event>, b: seq<Event>, e: Event)
    ensures IndexOf(a + b, e) == if e in a then IndexOf(a, e) else |a| + IndexOf(b, e)
  {
    if |a| == 0 {
      assert a + b == b;
    } else if a[0] == e {
      assert (a + b)[0] == e;
    } else {
      assert (a + b)[1..] == a[1..] + b;
      IndexOfAppend(a[1..], b, e);
    }
  }

  lemma {:induction false} DeletionsAppend(a: seq<Event>, b: seq<Event>)
    ensures Deletions(a + b) == Deletions(a) + Deletions(b)
    decreases |a|
  {
    if |a| == 0 {
      assert a + b == b;
    } else {
      var ab := a + b;
      assert ab[0] == a[0];
      assert ab[1..] == a[1..] + b;
      DeletionsAppend(a[1..], b);
      var h := if a[0].DeleteInstance? then [a[0].inst] else [];
      assert Deletions(ab) == h + Deletions(ab[1..]);
      assert Deletions(a) == h + Deletions(a[1..]);
    }
  }

  lemma DeletersMatchAppend(a: seq<Event>, b: seq<Event>)
    ensures DeletersMatch(a) && DeletersMatch(b) ==> DeletersMatch(a + b)
  {
    if DeletersMatch(a) && DeletersMatch(b) {
      forall i | 0 <= i < |a + b| && (a + b)[i].DeleteInstance?
        ensures (a + b)[i].deleter == (a + b)[i].inst.locality
      {
        if i >= |a| {
          assert (a + b)[i] == b[i - |a|];
        }
      }
    }
  }

  /** Nothing is deleted along `a + cs + b` when nothing is deleted along
      any of the three parts. */
  lemma NoDeletionsAround(a: seq<Event>, cs: seq<Event>, b: seq<Event>)
    requires forall i :: 0 <= i < |a| ==> !a[i].DeleteInstance?
    requires Deletions(cs) == []
    requires forall i :: 0 <= i < |b| ==> !b[i].DeleteInstance?
    ensures Deletions(a + cs + b) == []
  {
    NoDeletions(a);
    NoDeletions(b);
    DeletionsAppend(a, cs);
    DeletionsAppend(a + cs, b);
  }

  lemma {:induction false} SingleDeletion(x: Instance, l: Locality)
    ensures Deletions([DeleteInstance(x, l)]) == [x]
  {
    assert [DeleteInstance(x, l)][1..] == [];
  }

  /** Exactly one instance is deleted along `a + [DeleteInstance(x, l)] + b`
      when nothing is deleted along `a` and `b`. */
  lemma OneDeletion(a: seq<Event>, x: Instance, l: Locality, b: seq<Event>)
    requires forall i :: 0 <= i < |a| ==> !a[i].DeleteInstance?
    requires forall i :: 0 <= i < |b| ==> !b[i].DeleteInstance?
    ensures Deletions(a + [DeleteInstance(x, l)] + b) == [x]
  {
    var d := DeleteInstance(x, l);
    NoDeletions(a);
    NoDeletions(b);
    SingleDeletion(x, l);
    DeletionsAppend(a, [d]);
    DeletionsAppend(a + [d], b);
  }

  /** ... and the deleter matches when `l` is the locality of `x`. */
  lemma OneDeleterMatches(a: seq<Event>, x: Instance, b: seq<Event>)
    requires forall i :: 0 <= i < |a| ==> !a[i].DeleteInstance?
    requires forall i :: 0 <= i < |b| ==> !b[i].DeleteInstance?
    ensures DeletersMatch(a + [DeleteInstance(x, x.locality)] + b)
  {
  }

  /** `x` at position i and the first `y` at a later position j. */
  lemma BeforeAt(t: seq<Event>, x: Event, y: Event, i: nat, j: nat)
    requires i < j < |t| && t[i] == x && t[j] == y && y !in t[..j]
    ensures Before(t, x, y)
  {
    assert t == t[..j] + t[j..];
    assert t[..j][i] == x;
    assert t[j..][0] == y;
    BeforeAcross(t[..j], t[j..], x, y);
  }

  /** A step that occurs in `a` comes before any step that occurs only in `b`. */
  lemma BeforeAcross(a: seq<Event>, b: seq<Event>, x: Event, y: Event)
    requires x in a && y !in a && y in b
    ensures Before(a + b, x, y)
  {
    IndexOfAppend(a, b, x);
    IndexOfAppend(a, b, y);
  }

  /** Prepending steps other than `x` and `y` keeps their order. */
  lemma BeforeAfterPrefix(p: seq<Event>, b: seq<Event>, x: Event, y: Event)
    requires x !in p && y !in p && Before(b, x, y)
    ensures Before(p + b, x, y)
  {
    IndexOfAppend(p, b, x);
    IndexOfAppend(p, b, y);
  }

  /** In `p + [x] + m + [y] + r`, the first `x` comes before the first `y`
      when neither occurs in `p` and `y` does not occur in `m`. */
  lemma BeforeSplit(p: seq<Event>, x: Event, m: seq<Event>, y: Event, r: seq<Event>)
    requires x !in p && y !in p && y != x && y !in m
    ensures Before(p + [x] + m + [y] + r, x, y)
  {
    var a := p + [x] + m;
    var b := [y] + r;
    assert p + [x] + m + [y] + r == a + b;
    IndexOfAppend(p + [x], m, x);
    IndexOfAppend(p, [x], x);
    IndexOfAppend(a, b, x);
    IndexOfAppend(p + [x], m, y);
    IndexOfAppend(p, [x], y);
    IndexOfAppend(a, b, y);
  }
}
