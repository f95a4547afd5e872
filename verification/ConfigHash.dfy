/** Change detection: the text an order's parameters are rendered to before they
    are digested, and when that text determines the parameters. */
module ConfigHash {
  import opened Text
  import opened Api

  datatype SleepParams = SleepParams(name: string, namespace: string, kind: string, sleepAt: string,
                                     wakeAt: string, timezone: string, workingDays: string)
  {
    function Fields(): (f: seq<string>)
      ensures |f| == 7
    {
      [name, namespace, kind, sleepAt, wakeAt, timezone, workingDays]
    }
  }

  function FromFields(f: seq<string>): SleepParams
    requires |f| == 7
  {
    SleepParams(f[0], f[1], f[2], f[3], f[4], f[5], f[6])
  }

  /** Go's default rendering of the record. */
  function Render(p: SleepParams): string {
    "{" + Join(p.Fields(), ' ') + "}"
  }

  /** Braces around the seven fields, in this order, one space between them. */
  lemma RenderText(p: SleepParams)
    ensures Render(p) == "{" + (p.name + " " + (p.namespace + " " + (p.kind + " " + (p.sleepAt + " " +
                         (p.wakeAt + " " + (p.timezone + " " + p.workingDays)))))) + "}"
  {
    var f := p.Fields();
    assert f[0..] == f;
    assert Join(f[6..], ' ') == f[6];
    forall i | 0 <= i < 6 ensures Join(f[i..], ' ') == f[i] + " " + Join(f[i + 1..], ' ') {
      assert f[i..][1..] == f[i + 1..];
    }
    var t5 := p.timezone + " " + p.workingDays;
    assert Join(f[5..], ' ') == t5;
    var t4 := p.wakeAt + " " + t5;
    assert Join(f[4..], ' ') == t4;
    var t3 := p.sleepAt + " " + t4;
    assert Join(f[3..], ' ') == t3;
    var t2 := p.kind + " " + t3;
    assert Join(f[2..], ' ') == t2;
    assert Join(f[1..], ' ') == p.namespace + " " + t2;
  }

  function ConfigHashCalc(digest: string -> Hash, p: SleepParams): Hash {
    digest(Render(p))
  }

  predicate SpaceFree(fields: seq<string>) {
    forall i :: 0 <= i < |fields| ==> ' ' !in fields[i]
  }

  /** The list of working days, rendered last, may contain spaces; the rest may not. */
  predicate Plain(p: SleepParams) {
    SpaceFree(p.Fields()[..6])
  }

  // ----- Joining with one part that contains the separator -----

  lemma {:induction false} SplitJoinLast(init: seq<string>, last: string)
    requires SpaceFree(init)
    ensures Split(Join(init + [last], ' '), ' ') == init + Split(last, ' ')
  {
    var all := init + [last];
    if init == [] {
      assert all == [last] && init + Split(last, ' ') == Split(last, ' ');
    } else {
      assert all[1..] == init[1..] + [last] && all[0] == init[0];
      SplitJoinLast(init[1..], last);
      SplitAppend(init[0], Join(all[1..], ' '), ' ');
      SplitWhole(init[0], ' ');
      assert init == [init[0]] + init[1..];
    }
  }

  lemma {:induction false} OnePartHasNoSeparator(s: string)
    requires |Split(s, ' ')| == 1
    ensures ' ' !in s
  {
    if s != "" {
      assert s[0] != ' ';
      OnePartHasNoSeparator(s[1..]);
      assert s == [s[0]] + s[1..];
    }
  }

  /** If joining and splitting does not add parts, no part contained a separator. */
  lemma {:induction false} NoExtraParts(parts: seq<string>)
    requires parts != []
    ensures |Split(Join(parts, ' '), ' ')| >= |parts|
    ensures |Split(Join(parts, ' '), ' ')| == |parts| ==> SpaceFree(parts)
  {
    if |parts| == 1 {
      if |Split(parts[0], ' ')| == 1 {
        OnePartHasNoSeparator(parts[0]);
      }
    } else {
      NoExtraParts(parts[1..]);
      SplitAppend(parts[0], Join(parts[1..], ' '), ' ');
      if |Split(Join(parts, ' '), ' ')| == |parts| {
        OnePartHasNoSeparator(parts[0]);
        assert forall i :: 0 < i < |parts| ==> parts[i] == parts[1..][i - 1];
      }
    }
  }

  /** A separator inside a part can be taken for one between parts. */
  lemma {:induction false} SeparatorMoves(pre: seq<string>, u: string, v: string, w: string, post: seq<string>)
    ensures Join(pre + [u + " " + v, w] + post, ' ') == Join(pre + [u, v + " " + w] + post, ' ')
  {
    var a, b := pre + [u + " " + v, w] + post, pre + [u, v + " " + w] + post;
    if pre == [] {
      assert a[1..] == [w] + post && b[1..] == [v + " " + w] + post;
      assert a[1..][1..] == post && b[1..][1..] == post;
      if post == [] {
        assert Join(a, ' ') == u + " " + v + " " + w;
        assert Join(b, ' ') == u + " " + (v + " " + w);
      } else {
        var rest := Join(post, ' ');
        assert Join(a, ' ') == (u + " " + v) + " " + (w + " " + rest);
        assert Join(b, ' ') == u + " " + ((v + " " + w) + " " + rest);
      }
    } else {
      assert a[1..] == pre[1..] + [u + " " + v, w] + post;
      assert b[1..] == pre[1..] + [u, v + " " + w] + post;
      SeparatorMoves(pre[1..], u, v, w, post);
    }
  }

  // ----- Injectivity -----

  lemma RenderedFields(p: SleepParams, q: SleepParams)
    requires Render(p) == Render(q)
    ensures Join(p.Fields(), ' ') == Join(q.Fields(), ' ')
  {
    var a, b := Join(p.Fields(), ' '), Join(q.Fields(), ' ');
    assert Render(p)[1..|Render(p)| - 1] == a;
    assert Render(q)[1..|Render(q)| - 1] == b;
  }

  /** Plain parameters are determined by their rendering. */
  lemma RenderInjective(p: SleepParams, q: SleepParams)
    requires Plain(p) && Plain(q)
    ensures Render(p) == Render(q) <==> p == q
  {
    if Render(p) == Render(q) {
      RenderedFields(p, q);
      var f, g := p.Fields(), q.Fields();
      SplitJoinLast(f[..6], p.workingDays);
      SplitJoinLast(g[..6], q.workingDays);
      assert f[..6] + [p.workingDays] == f && g[..6] + [q.workingDays] == g;
      var days, days' := Split(p.workingDays, ' '), Split(q.workingDays, ' ');
      assert f[..6] + days == g[..6] + days';
      assert f[..6] == (f[..6] + days)[..6] == g[..6];
      assert days == (f[..6] + days)[6..] == days';
      JoinSplit(p.workingDays, ' ');
      JoinSplit(q.workingDays, ' ');
      assert f[..6][0] == g[..6][0] && f[..6][1] == g[..6][1] && f[..6][2] == g[..6][2];
      assert f[..6][3] == g[..6][3] && f[..6][4] == g[..6][4] && f[..6][5] == g[..6][5];
    }
  }

  /** A space in any field allows a second record with the same rendering. */
  lemma SpaceAllowsTwin(p: SleepParams, i: nat) returns (q: SleepParams)
    requires i < 7 && ' ' in p.Fields()[i]
    ensures q != p && Render(q) == Render(p)
  {
    hide Join;
    var f := p.Fields();
    var k :| 0 <= k < |f[i]| && f[i][k] == ' ';
    var u, v := f[i][..k], f[i][k + 1..];
    assert f[i] == u + " " + v;
    var g;
    if i < 6 {
      g := f[..i] + [u, v + " " + f[i + 1]] + f[i + 2..];
      assert f == f[..i] + [u + " " + v, f[i + 1]] + f[i + 2..];
      SeparatorMoves(f[..i], u, v, f[i + 1], f[i + 2..]);
      assert g[i] == u && |u| < |f[i]|;
    } else {
      g := f[..5] + [f[5] + " " + u, v] + [];
      assert f == f[..5] + [f[5], u + " " + v] + [];
      SeparatorMoves(f[..5], f[5], u, v, []);
      assert g[6] == v && |v| < |f[6]|;
    }
    q := TwinOf(p, g);
  }

  lemma TwinOf(p: SleepParams, g: seq<string>) returns (q: SleepParams)
    requires |g| == 7 && g != p.Fields() && Join(g, ' ') == Join(p.Fields(), ' ')
    ensures q != p && Render(q) == Render(p)
  {
    q := FromFields(g);
    assert q.Fields() == g;
  }

  /** A record is the only one with its rendering exactly when no field has a space. */
  lemma RenderIsUnique(p: SleepParams)
    ensures (forall q :: Render(q) == Render(p) ==> q == p) <==> SpaceFree(p.Fields())
  {
    var f := p.Fields();
    if SpaceFree(f) {
      forall q | Render(q) == Render(p) ensures q == p {
        RenderedFields(p, q);
        SplitJoin(f, ' ');
        NoExtraParts(q.Fields());
        RenderInjective(p, q);
      }
    } else {
      var i :| 0 <= i < |f| && ' ' in f[i];
      var q := SpaceAllowsTwin(p, i);
    }
  }

  /** No two of the parameters compared share a digest without sharing a rendering. */
  predicate CollisionFree(digest: string -> Hash, p: SleepParams, q: SleepParams) {
    digest(Render(p)) == digest(Render(q)) ==> Render(p) == Render(q)
  }

  /** With plain parameters and no collision, hashes differ exactly when parameters do. */
  lemma HashDetectsChange(digest: string -> Hash, p: SleepParams, q: SleepParams)
    requires Plain(p) && Plain(q) && CollisionFree(digest, p, q)
    ensures ConfigHashCalc(digest, p) != ConfigHashCalc(digest, q) <==> p != q
  {
    RenderInjective(p, q);
  }
}
