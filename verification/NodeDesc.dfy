/** The description of a node and the search for the file system a file is on. */
module NodeDescs {

  datatype NodeType = Compute | Storage | Head | Any

  // ---------------------------------------------------------------- mount points

  function Slashes(s: string): nat {
    if s == "" then 0 else Slashes(s[..|s| - 1]) + if s[|s| - 1] == '/' then 1 else 0
  }

  lemma {:induction false} SlashesConcat(a: string, b: string)
    ensures Slashes(a + b) == Slashes(a) + Slashes(b)
  {
    if b == "" {
      assert a + b == a;
    } else {
      assert (a + b)[..|a + b| - 1] == a + b[..|b| - 1];
      SlashesConcat(a, b[..|b| - 1]);
    }
  }

  lemma SlashesPrefix(s: string, i: nat, j: nat)
    requires i <= j <= |s|
    ensures Slashes(s[..i]) <= Slashes(s[..j])
  {
    SlashesConcat(s[..i], s[i..j]);
    assert s[..j] == s[..i] + s[i..j];
  }

  lemma SlashesBetween(s: string, i: nat, j: nat)
    requires 1 <= i <= j <= |s|
    ensures Slashes(s[1..i]) <= Slashes(s[1..j])
  {
    SlashesPrefix(s[1..j], i - 1, j - 1);
    assert s[1..j][..i - 1] == s[1..i];
    assert s[1..j][..j - 1] == s[1..j];
  }

  predicate IsMount(m: string) { m != "" && m[0] == '/' }

  predicate IsRoot(m: string) { |m| == 1 }

  /** The file lies below the mount point. */
  predicate Below(file: string, m: string) { m + "/" <= file }

  /** The mount point is a leading part of the file name, and a slash follows. */
  lemma BelowIff(file: string, m: string)
    ensures Below(file, m) <==> |m| < |file| && file[..|m|] == m && file[|m|] == '/'
  {
    if Below(file, m) {
      assert (m + "/")[|m|] == '/' && file[..|m|] == (m + "/")[..|m|];
    }
    if |m| < |file| && file[..|m|] == m && file[|m|] == '/' { assert file[..|m| + 1] == m + "/"; }
  }

  predicate HasRoot(mounts: seq<string>) { exists k :: 0 <= k < |mounts| && IsRoot(mounts[k]) }

  predicate HasOther(mounts: seq<string>) { exists k :: 0 <= k < |mounts| && !IsRoot(mounts[k]) }

  predicate FirstRoot(mounts: seq<string>, k: nat) {
    k < |mounts| && IsRoot(mounts[k]) && forall j :: 0 <= j < k ==> !IsRoot(mounts[j])
  }

  predicate LastRoot(mounts: seq<string>, k: nat) {
    k < |mounts| && IsRoot(mounts[k]) && forall j :: k < j < |mounts| ==> !IsRoot(mounts[j])
  }

  /** Mount k is the longest one the file is below, the first of them when there are several. */
  predicate Longest(mounts: seq<string>, file: string, k: nat) {
    && k < |mounts| && !IsRoot(mounts[k]) && Below(file, mounts[k])
    && forall j :: 0 <= j < |mounts| && Below(file, mounts[j]) ==>
         |mounts[j]| < |mounts[k]| || (|mounts[j]| == |mounts[k]| && k <= j)
  }

  /** The mount the search finds, -1 for none. Which root mount is found when there are several depends
      on a double slash at the start of the file name. */
  predicate Chosen(mounts: seq<string>, file: string, k: int) {
    if exists j :: 0 <= j < |mounts| && !IsRoot(mounts[j]) && Below(file, mounts[j]) then
      k >= 0 && Longest(mounts, file, k)
    else if HasRoot(mounts) then
      k >= 0 && if HasOther(mounts) && Below(file, "/") then FirstRoot(mounts, k) else LastRoot(mounts, k)
    else
      k == -1
  }

  /** There is one answer. */
  lemma ChosenUnique(mounts: seq<string>, file: string, k: int, l: int)
    requires Chosen(mounts, file, k) && Chosen(mounts, file, l)
    ensures k == l
  {
  }

  /** With at most one root mount, the answer is the longest mount the file is below, the root mount
      being below everything. */
  lemma ChosenIsLongest(mounts: seq<string>, file: string, k: int)
    requires Chosen(mounts, file, k) && forall i :: 0 <= i < |mounts| ==> IsMount(mounts[i])
    requires forall i, j :: 0 <= i < j < |mounts| ==> !(IsRoot(mounts[i]) && IsRoot(mounts[j]))
    ensures k < |mounts|
    ensures forall j :: 0 <= j < |mounts| && (IsRoot(mounts[j]) || Below(file, mounts[j])) ==>
      k >= 0 && (|mounts[j]| < |mounts[k]| || (|mounts[j]| == |mounts[k]| && k <= j))
    ensures k >= 0 ==> IsRoot(mounts[k]) || Below(file, mounts[k])
  {
  }

  /** Some mount other than a root mount has the file below it. */
  predicate OtherMatch(mounts: seq<string>, file: string) {
    exists j :: 0 <= j < |mounts| && !IsRoot(mounts[j]) && Below(file, mounts[j])
  }

  predicate SeveralRoots(mounts: seq<string>) {
    exists i, j :: 0 <= i < j < |mounts| && IsRoot(mounts[i]) && IsRoot(mounts[j])
  }

  /** The longest mount the file is below, the root mount being below everything: the first of them when
      there are several, but the last root mount. */
  predicate LongestLastRoot(mounts: seq<string>, file: string, k: int) {
    if OtherMatch(mounts, file) then k >= 0 && Longest(mounts, file, k)
    else if HasRoot(mounts) then k >= 0 && LastRoot(mounts, k)
    else k == -1
  }

  /** The same, but the first root mount as well. */
  predicate LongestFirst(mounts: seq<string>, file: string, k: int) {
    if OtherMatch(mounts, file) then k >= 0 && Longest(mounts, file, k)
    else if HasRoot(mounts) then k >= 0 && FirstRoot(mounts, k)
    else k == -1
  }

  /** With any number of root mounts the answer is the longest mount, and the last root mount, except if
      there are several root mounts, the file is below no other mount, though there is one, and the file name
      starts with a double slash: exactly then it is not the last root mount. */
  lemma LongestUnlessDoubleSlash(mounts: seq<string>, file: string, k: int)
    requires Chosen(mounts, file, k)
    ensures LongestLastRoot(mounts, file, k)
       <==> !(SeveralRoots(mounts) && !OtherMatch(mounts, file) && HasOther(mounts) && "//" <= file)
    ensures LongestFirst(mounts, file, k)
       <==> !(SeveralRoots(mounts) && !OtherMatch(mounts, file) && !(HasOther(mounts) && "//" <= file))
  {
  }

  lemma DoubleSlash(file: string)
    ensures Below(file, "/") == ("//" <= file)
  {
    assert "/" + "/" == "//";
  }

  /** With two root mounts, which of them is found depends on a second slash in front of the same name. */
  lemma TwoRootMounts()
    ensures var mounts := ["/", "/", "/a"]; Chosen(mounts, "/x", 1) && Chosen(mounts, "//x", 0)
    ensures var mounts := ["/", "/", "/a"];
      LongestLastRoot(mounts, "/x", 1) && LongestFirst(mounts, "//x", 0) && !LongestLastRoot(mounts, "//x", 0)
  {
    var mounts := ["/", "/", "/a"];
    assert IsRoot(mounts[0]) && IsRoot(mounts[1]) && !IsRoot(mounts[2]);
    assert "/" + "/" == "//" && "/a" + "/" == "/a/";
    assert "/x"[1] == 'x' && "//x"[1] == '/' && "/a/"[1] == 'a';
    DoubleSlash("/x");
    DoubleSlash("//x");
    assert !Below("/x", mounts[2]) && !Below("//x", mounts[2]);
    assert Below("//x", "/") && !Below("/x", "/");
  }

  // ---------------------------------------------------------------- the search

  /** pos are the positions of the slashes of file[1..i], in order. */
  ghost predicate SlashList(file: string, i: nat, pos: seq<nat>)
    requires 1 <= i <= |file|
  {
    && |pos| == Slashes(file[1..i])
    && (forall r :: 0 <= r < |pos| ==> 1 <= pos[r] < i && file[pos[r]] == '/')
    && (forall r, s :: 0 <= r < s < |pos| ==> pos[r] < pos[s])
    && (forall q :: 1 <= q < i && file[q] == '/' ==> Slashes(file[1..q]) < |pos| && pos[Slashes(file[1..q])] == q)
  }

  /** m is one of the leading parts of the file name. */
  predicate IsPart(file: string, pos: seq<nat>, m: string) {
    exists r :: 0 <= r < |pos| && pos[r] < |file| && file[..pos[r]] == m
  }

  lemma EmptySlashList(file: string)
    requires 1 <= |file|
    ensures SlashList(file, 1, [])
  {
    assert file[1..1] == "";
  }

  lemma SlashesNext(file: string, i: nat)
    requires 1 <= i < |file|
    ensures Slashes(file[1..i + 1]) == Slashes(file[1..i]) + if file[i] == '/' then 1 else 0
  {
    var more := file[1..i + 1];
    assert more[..|more| - 1] == file[1..i];
  }

  lemma SlashListGrows(file: string, i: nat, pos: seq<nat>)
    requires 1 <= i < |file| && SlashList(file, i, pos)
    ensures SlashList(file, i + 1, if file[i] == '/' then pos + [i] else pos)
  {
    SlashesNext(file, i);
    hide Slashes;
    if file[i] == '/' {
      SlashAdded(file, i, pos);
    } else {
      assert forall q :: 1 <= q < i + 1 && file[q] == '/' ==> q < i;
    }
  }

  lemma SlashAdded(file: string, i: nat, pos: seq<nat>)
    requires 1 <= i < |file| && SlashList(file, i, pos) && file[i] == '/'
    requires Slashes(file[1..i + 1]) == Slashes(file[1..i]) + 1
    ensures SlashList(file, i + 1, pos + [i])
  {
    hide Slashes;
    var longer := pos + [i];
    forall q | 1 <= q < i + 1 && file[q] == '/'
      ensures Slashes(file[1..q]) < |longer| && longer[Slashes(file[1..q])] == q
    {
      if q < i { assert pos[Slashes(file[1..q])] == q; }
    }
  }

  /** A mount the file is below has as many slashes as the file up to the slash that follows it. */
  lemma MountSlashes(file: string, m: string)
    requires IsMount(m) && !IsRoot(m) && Below(file, m)
    ensures |m| < |file| && file[|m|] == '/' && file[..|m|] == m
    ensures Slashes(file[1..|m|]) + 1 == Slashes(m)
  {
    assert (m + "/")[|m|] == '/';
    assert file[..|m|] == m;
    SlashesConcat(m[..1], m[1..]);
    assert m == m[..1] + m[1..] && m[..1] == "/" && m[1..] == file[1..|m|];
    assert "/"[..0] == "" && Slashes("") == 0;
  }

  /** Looking at no more slashes than the mounts have loses no mount. */
  lemma LimitLosesNothing(file: string, i: nat, pos: seq<nat>, nrp: nat, m: string)
    requires IsMount(m) && !IsRoot(m) && Below(file, m) && Slashes(m) <= nrp
    requires 1 <= i <= |file| && SlashList(file, i, pos) && (i == |file| || |pos| == nrp)
    ensures IsPart(file, pos, m)
  {
    MountSlashes(file, m);
    var r := Slashes(file[1..|m|]);
    if i <= |m| { SlashesBetween(file, i, |m|); }
    assert pos[r] == |m| && file[..pos[r]] == m;
  }

  lemma SlashIsFirst(file: string, i: nat, pos: seq<nat>, nrp: nat)
    requires Below(file, "/") && 1 <= i <= |file| && SlashList(file, i, pos)
    requires nrp > 0 && (i == |file| || |pos| == nrp)
    ensures |pos| > 0 && pos[0] == 1
  {
    assert ("/" + "/")[1] == '/';
    assert file[1..1] == "" && Slashes("") == 0;
    assert i == 1 ==> |pos| == 0;
  }

  lemma SlashesSuffice(mounts: seq<string>, file: string, i: nat, pos: seq<nat>, nrp: nat)
    requires 1 <= i <= |file| && file[0] == '/' && SlashList(file, i, pos) && (i == |file| || |pos| == nrp)
    requires forall m :: m in mounts ==> IsMount(m)
    requires forall m :: m in mounts && !IsRoot(m) ==> Slashes(m) <= nrp
    requires nrp > 0 <==> HasOther(mounts)
    ensures forall m :: m in mounts && !IsRoot(m) && Below(file, m) ==> IsPart(file, pos, m)
    ensures HasOther(mounts) && Below(file, "/") ==> IsPart(file, pos, "/")
  {
    forall m | m in mounts && !IsRoot(m) && Below(file, m) ensures IsPart(file, pos, m) {
      LimitLosesNothing(file, i, pos, nrp, m);
    }
    if HasOther(mounts) && Below(file, "/") {
      SlashIsFirst(file, i, pos, nrp);
      assert file[..pos[0]] == "/";
    }
  }

  /** The mount found by comparing the parts of the file name, longest part first. */
  lemma FirstHit(mounts: seq<string>, file: string, pos: seq<nat>, p: nat, i: nat)
    requires |file| > 1 && (forall r :: 0 <= r < |pos| ==> 1 <= pos[r] < |file| && file[pos[r]] == '/')
    requires forall r, s :: 0 <= r < s < |pos| ==> pos[r] < pos[s]
    requires forall m :: m in mounts ==> IsMount(m)
    requires forall m :: m in mounts && !IsRoot(m) && Below(file, m) ==>
      IsPart(file, pos, m)
    requires p < |pos| && i < |mounts| && mounts[i] == file[..pos[p]]
    requires forall r, j :: p < r < |pos| && 0 <= j < |mounts| ==> mounts[j] != file[..pos[r]]
    requires forall j :: 0 <= j < i ==> mounts[j] != file[..pos[p]]
    requires HasOther(mounts)
    ensures Chosen(mounts, file, i)
  {
    assert mounts[i] + "/" == file[..pos[p] + 1];
    forall j | 0 <= j < |mounts| && !IsRoot(mounts[j]) && Below(file, mounts[j])
      ensures |mounts[j]| < |mounts[i]| || (|mounts[j]| == |mounts[i]| && i <= j)
    {
      var r :| 0 <= r < |pos| && pos[r] < |file| && file[..pos[r]] == mounts[j];
    }
    if IsRoot(mounts[i]) {
      RootIsSlash(mounts[i]);
      assert file[..2] == "//";
      forall j | 0 <= j < i ensures !IsRoot(mounts[j]) {
        if IsRoot(mounts[j]) { RootIsSlash(mounts[j]); }
      }
    }
  }

  lemma RootIsSlash(m: string)
    requires IsMount(m) && IsRoot(m)
    ensures m == "/"
  {
  }

  /** A node description as a value: what is stored when a node is added to a cluster. */
  datatype Node = Node(name: string, ntype: NodeType, fileSys: seq<string>, mounts: seq<string>)

  class NodeDesc {
    var itsName: string
    var itsType: NodeType
    var itsFileSys: seq<string>
    var itsMounts: seq<string>

    ghost predicate Valid()
      reads this
    {
      && |itsFileSys| == |itsMounts|
      && forall i :: 0 <= i < |itsMounts| ==> itsFileSys[i] != "" && IsMount(itsMounts[i])
    }

    constructor ()
      ensures Valid() && itsName == "" && itsType == Any && itsFileSys == [] && itsMounts == []
    {
      itsName, itsType, itsFileSys, itsMounts := "", Any, [], [];
    }

    /** A leading /auto of the mount point is removed. The result tells whether the assertions hold;
        if they do not, nothing is added. */
    method AddFileSys(fsName: string, mountPoint: string) returns (ok: bool)
      requires Valid()
      modifies this
      ensures Valid() && itsName == old(itsName) && itsType == old(itsType)
      ensures ok == (fsName != "" && IsMount(Stripped(mountPoint)))
      ensures itsFileSys == if ok then old(itsFileSys) + [fsName] else old(itsFileSys)
      ensures itsMounts == if ok then old(itsMounts) + [Stripped(mountPoint)] else old(itsMounts)
    {
      if |fsName| == 0 { return false; }
      var mp := mountPoint;
      if |mp| > 5 && mp[..5] == "/auto" {
        mp := mp[5..];
      }
      if !(|mp| > 0 && mp[0] == '/') { return false; }
      itsFileSys := itsFileSys + [fsName];
      itsMounts := itsMounts + [mp];
      return true;
    }

    /** The file system of the mount chosen, which is unique; the empty string if there is none. */
    method FindFileSys(fileName: string) returns (fs: string)
      requires Valid()
      requires |fileName| > 1 && fileName[0] == '/'
      ensures exists k: int ::
        k < |itsMounts| && Chosen(itsMounts, fileName, k) && fs == (if k < 0 then "" else itsFileSys[k])
    {
      hide Slashes, Chosen, IsRoot, Below, HasRoot, HasOther;
      var nrp, rootfs := MaxParts();
      var pos := FindSlashes(fileName, nrp);
      var p := |pos|;
      while p > 0
        invariant 0 <= p <= |pos|
        invariant forall r, j :: p <= r < |pos| && 0 <= j < |itsMounts| ==> itsMounts[j] != fileName[..pos[r]]
      {
        p := p - 1;
        var filePart := fileName[..pos[p]];
        for i := 0 to |itsMounts|
          invariant forall j :: 0 <= j < i ==> itsMounts[j] != filePart
        {
          if filePart == itsMounts[i] {
            FirstHit(itsMounts, fileName, pos, p, i);
            return itsFileSys[i];
          }
        }
      }
      NoHit(itsMounts, fileName, pos, rootfs);
      return if rootfs >= 0 then itsFileSys[rootfs] else "";
    }

    /** The positions of the slashes after the parts of the file name, at most nrp of them. Every mount
        the file is below is one of those parts. */
    method FindSlashes(fileName: string, nrp: nat) returns (pos: seq<nat>)
      requires Valid() && |fileName| > 1 && fileName[0] == '/'
      requires forall m :: m in itsMounts && !IsRoot(m) ==> Slashes(m) <= nrp
      requires nrp > 0 <==> HasOther(itsMounts)
      ensures forall r :: 0 <= r < |pos| ==> 1 <= pos[r] < |fileName| && fileName[pos[r]] == '/'
      ensures forall r, s :: 0 <= r < s < |pos| ==> pos[r] < pos[s]
      ensures forall m :: m in itsMounts && !IsRoot(m) && Below(fileName, m) ==>
        IsPart(fileName, pos, m)
      ensures HasOther(itsMounts) && Below(fileName, "/") ==>
        IsPart(fileName, pos, "/")
      ensures |pos| > 0 ==> HasOther(itsMounts)
    {
      hide Slashes, IsRoot, Below, HasOther;
      pos := [];
      var n := 1;
      EmptySlashList(fileName);
      while n < |fileName| && |pos| < nrp
        invariant 1 <= n <= |fileName| && |pos| <= nrp && SlashList(fileName, n, pos)
      {
        SlashListGrows(fileName, n, pos);
        if fileName[n] == '/' {
          pos := pos + [n];
        }
        n := n + 1;
      }
      SlashesSuffice(itsMounts, fileName, n, pos, nrp);
    }

    /** The maximum number of parts of a mount point, and the last root mount. */
    method MaxParts() returns (nrp: nat, rootfs: int)
      requires Valid()
      ensures forall m :: m in itsMounts && !IsRoot(m) ==> Slashes(m) <= nrp
      ensures nrp > 0 <==> HasOther(itsMounts)
      ensures rootfs < |itsMounts|
      ensures if HasRoot(itsMounts) then rootfs >= 0 && LastRoot(itsMounts, rootfs) else rootfs == -1
    {
      nrp, rootfs := 0, -1;
      for i := 0 to |itsMounts|
        invariant forall k :: 0 <= k < i && !IsRoot(itsMounts[k]) ==> Slashes(itsMounts[k]) <= nrp
        invariant nrp > 0 <==> HasOther(itsMounts[..i])
        invariant if rootfs >= 0 then rootfs < i && LastRoot(itsMounts[..i], rootfs)
                  else rootfs == -1 && !HasRoot(itsMounts[..i])
      {
        var nr := 0;
        var str := itsMounts[i];
        if |str| == 1 {
          rootfs := i;
        } else {
          for j := 0 to |str|
            invariant nr == Slashes(str[..j])
          {
            assert str[..j + 1][..j] == str[..j];
            if str[j] == '/' {
              nr := nr + 1;
            }
          }
          assert str[..|str|] == str;
          SlashesPrefix(str, 1, |str|);
        }
        if nr > nrp {
          nrp := nr;
        }
        assert itsMounts[..i + 1] == itsMounts[..i] + [str];
      }
      assert itsMounts[..|itsMounts|] == itsMounts;
    }
  }

  /** The mount point without a leading /auto. */
  function Stripped(mountPoint: string): (r: string)
    ensures if "/auto" < mountPoint then "/auto" + r == mountPoint else r == mountPoint
  {
    if |mountPoint| > 5 && mountPoint[..5] == "/auto" then mountPoint[5..] else mountPoint
  }

  lemma NoHit(mounts: seq<string>, file: string, pos: seq<nat>, rootfs: int)
    requires forall m :: m in mounts ==> IsMount(m)
    requires forall m :: m in mounts && !IsRoot(m) && Below(file, m) ==>
      IsPart(file, pos, m)
    requires forall r :: 0 <= r < |pos| ==> pos[r] <= |file|
    requires forall r, j :: 0 <= r < |pos| && 0 <= j < |mounts| ==> mounts[j] != file[..pos[r]]
    requires if HasRoot(mounts) then rootfs >= 0 && LastRoot(mounts, rootfs) else rootfs == -1
    requires HasOther(mounts) && Below(file, "/") ==> IsPart(file, pos, "/")
    ensures Chosen(mounts, file, rootfs)
  {
    if rootfs >= 0 { RootIsSlash(mounts[rootfs]); }
  }
}
