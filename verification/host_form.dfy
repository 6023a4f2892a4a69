/** The other way to put a server into a file name: "host=...,key=...,api=...,relay=...". */
module HostFormRoundTrip {
  import opened Wrappers
  import opened Strings
  import opened CustomServerName
  import opened NameRoundTrip

  // ---------------------------------------------------------------- fields

  datatype Tag = Host | Key | Api | Relay

  function TagText(t: Tag): (s: string)
    ensures |s| >= 4
  {
    match t case Host => "host=" case Key => "key=" case Api => "api=" case Relay => "relay="
  }

  /** A field as it is written in the file name: the tag, in any letter case, and a value. */
  datatype Field = Field(tag: Tag, text: string)

  ghost predicate IsField(f: Field) {
    var n := |TagText(f.tag)|;
    |f.text| >= n && Lower(f.text[..n]) == TagText(f.tag) && ',' !in f.text
  }

  function ValueOf(f: Field): (v: string) {
    if |f.text| >= |TagText(f.tag)| then f.text[|TagText(f.tag)|..] else ""
  }

  function Component(lic: CustomServer, t: Tag): (v: string) {
    match t case Host => lic.host case Key => lic.key case Api => lic.api case Relay => lic.relay
  }

  /** The fields write this configuration: in any order, some of them perhaps twice, and
      without those that are empty. */
  ghost predicate Writes(fields: seq<Field>, lic: CustomServer) {
    && (forall i :: 0 <= i < |fields| ==> IsField(fields[i]) && ValueOf(fields[i]) == Component(lic, fields[i].tag))
    && (forall t :: Component(lic, t) != "" ==> HasTag(fields, t))
  }

  function Texts(fields: seq<Field>): (els: seq<string>)
    ensures |els| == |fields| && forall i :: 0 <= i < |els| ==> els[i] == fields[i].text
  {
    seq(|fields|, i requires 0 <= i < |fields| => fields[i].text)
  }

  lemma FirstChar(s: string, p: string)
    requires p != ""
    ensures StartsWith(s, p) ==> s != "" && s[0] == p[0]
  {
  }

  lemma LastChar(s: string, p: string)
    requires p != ""
    ensures EndsWith(s, p) ==> s != "" && s[|s| - 1] == p[|p| - 1]
  {
    if EndsWith(s, p) { assert s[|s| - |p|..][|p| - 1] == s[|s| - 1]; }
  }

  lemma FieldTag(f: Field, t: Tag)
    requires IsField(f)
    ensures StartsWith(Lower(f.text), TagText(t)) <==> t == f.tag
  {
    var n, l := |TagText(f.tag)|, Lower(f.text);
    assert l[..n] == Lower(f.text[..n]);
    FirstChar(l, TagText(f.tag));
    FirstChar(l, TagText(t));
  }

  ghost predicate HasTag(fields: seq<Field>, t: Tag) { exists i :: 0 <= i < |fields| && fields[i].tag == t }

  ghost predicate Agree(fields: seq<Field>, t: Tag, v: string) {
    forall i :: 0 <= i < |fields| ==> IsField(fields[i]) && (fields[i].tag == t ==> ValueOf(fields[i]) == v)
  }

  lemma LastOne(els: seq<string>, el: string, tag: string)
    ensures LastValue(els + [el], tag) == if StartsWith(Lower(el), tag) then el[|tag|..] else LastValue(els, tag)
  {
    assert (els + [el])[..|els|] == els;
  }

  /** The last field with a tag decides, and there is one unless the component is empty. */
  lemma {:induction false} FieldIsRead(fields: seq<Field>, t: Tag, v: string)
    requires Agree(fields, t, v) && (v != "" ==> HasTag(fields, t))
    ensures LastValue(Texts(fields), TagText(t)) == v
  {
    if fields != [] {
      var front, f := fields[..|fields| - 1], fields[|fields| - 1];
      assert Texts(fields) == Texts(front) + [f.text];
      LastOne(Texts(front), f.text, TagText(t));
      FieldTag(f, t);
      if f.tag != t {
        if v != "" { TagInFront(fields, t); }
        FieldIsRead(front, t, v);
      }
    }
  }

  lemma TagInFront(fields: seq<Field>, t: Tag)
    requires HasTag(fields, t) && fields[|fields| - 1].tag != t
    ensures HasTag(fields[..|fields| - 1], t)
  {
    var i :| 0 <= i < |fields| && fields[i].tag == t;
    assert fields[..|fields| - 1][i].tag == t;
  }

  /** Of several fields with one tag the last one counts, whatever the others say. */
  lemma {:induction false} LastFieldDecides(fields: seq<Field>, i: nat)
    requires i < |fields| && (forall j :: 0 <= j < |fields| ==> IsField(fields[j]))
    requires forall j :: i < j < |fields| ==> fields[j].tag != fields[i].tag
    ensures LastValue(Texts(fields), TagText(fields[i].tag)) == ValueOf(fields[i])
  {
    var front, f := fields[..|fields| - 1], fields[|fields| - 1];
    assert Texts(fields) == Texts(front) + [f.text];
    LastOne(Texts(front), f.text, TagText(fields[i].tag));
    FieldTag(f, fields[i].tag);
    if i < |fields| - 1 { LastFieldDecides(front, i); }
  }

  /** Copy marks behind the last comma are no field. */
  lemma MoreIsNoField(fields: seq<Field>, more: seq<string>, t: Tag)
    requires |more| <= 1 && (more != [] ==> more[0] == "" || more[0][0] in {' ', '('})
    ensures LastValue(Texts(fields) + more, TagText(t)) == LastValue(Texts(fields), TagText(t))
  {
    if more == [] {
      assert Texts(fields) + more == Texts(fields);
    } else {
      assert more == [more[0]];
      LastOne(Texts(fields), more[0], TagText(t));
      FirstChar(Lower(more[0]), TagText(t));
      assert TagText(t)[0] !in {' ', '('};
    }
  }

  lemma FieldsAreRead(fields: seq<Field>, more: seq<string>, lic: CustomServer)
    requires Writes(fields, lic)
    requires |more| <= 1 && (more != [] ==> more[0] == "" || more[0][0] in {' ', '('})
    ensures HostForm(Texts(fields) + more) == lic
  {
    forall t ensures LastValue(Texts(fields) + more, TagText(t)) == Component(lic, t) {
      MoreIsNoField(fields, more, t);
      FieldIsRead(fields, t, Component(lic, t));
    }
    assert LastValue(Texts(fields) + more, TagText(Host)) == lic.host;
    assert LastValue(Texts(fields) + more, TagText(Key)) == lic.key;
    assert LastValue(Texts(fields) + more, TagText(Api)) == lic.api;
    assert LastValue(Texts(fields) + more, TagText(Relay)) == lic.relay;
  }

  // ---------------------------------------------------------------- lists

  function Joined(els: seq<string>): (s: string) {
    if els == [] then "" else if |els| == 1 then els[0] else els[0] + "," + Joined(els[1..])
  }

  lemma {:induction false} SplitJoined(els: seq<string>)
    requires els != [] && forall i :: 0 <= i < |els| ==> ',' !in els[i]
    ensures Split(Joined(els), ",") == els
  {
    if |els| == 1 {
      forall j ensures !At(els[0], j, ",") {
        if 0 <= j < |els[0]| { assert els[0][j] in els[0] && els[0][j..j + 1] == [els[0][j]]; }
      }
      assert els == [els[0]];
    } else {
      SplitJoined(els[1..]);
      SplitAtChar(els[0], ',', Joined(els[1..]));
      assert [els[0]] + els[1..] == els;
    }
  }

  /** The list begins with its first element and ends with its last one. */
  lemma {:induction false} JoinedEnds(els: seq<string>)
    requires els != []
    ensures var s, e := Joined(els), els[|els| - 1];
            && |s| >= |els[0]| && s[..|els[0]|] == els[0]
            && |s| >= |e| && s[|s| - |e|..] == e
            && (|els| > 1 ==> |s| > |e| && s[|s| - |e| - 1] == ',')
  {
    if |els| > 1 {
      var rest := Joined(els[1..]);
      JoinedEnds(els[1..]);
      var s := els[0] + "," + rest;
      var e := els[|els| - 1];
      assert s[|s| - |rest|..] == rest;
      assert s[|s| - |e|..] == rest[|rest| - |e|..];
      if |els| > 2 { assert s[|s| - |e| - 1] == rest[|rest| - |e| - 1]; } else { assert rest == e; }
    }
  }

  // ---------------------------------------------------------------- the file name

  lemma FirstHostTag(pre: string, s: string)
    requires |s| >= 5 && Lower(s[..5]) == "host=" && !Occurs(Lower(pre), "host=")
    ensures Find(Lower(pre + s), "host=") == |pre|
  {
    var l := Lower(pre + s);
    assert l[|pre|..|pre| + 5] == Lower(s[..5]);
    forall j | 0 <= j < |pre| ensures !At(l, j, "host=") {
      if j + 5 <= |pre| {
        assert l[j..j + 5] == Lower(pre)[j..j + 5];
        assert !At(Lower(pre), j, "host=");
      } else if j + 5 <= |l| {
        assert l[|pre|] == 'h';
        assert l[j..j + 5][|pre| - j] == l[|pre|];
      }
    }
    FirstAt(l, "host=", |pre|);
  }

  lemma TwoExtensions(l: string)
    ensures EndsWith(l, ".exe.exe") ==> EndsWith(l[..|l| - 4], ".exe") && EndsWith(l, ".exe")
  {
    if EndsWith(l, ".exe.exe") {
      var e := l[|l| - 8..];
      assert l[|l| - 4..] == e[4..] == ".exe";
      assert l[..|l| - 4][|l| - 8..] == e[..4] == ".exe";
    }
  }

  lemma StripExtension(stem: string, ext: string)
    requires IsExtension(ext) && !EndsWith(Lower(stem), ".exe")
    ensures Stem(stem + ext) == stem
  {
    var s := stem + ext;
    var l := Lower(s);
    assert l == Lower(stem) + Lower(ext);
    assert l[..|stem|] == Lower(stem) && l[|stem|..] == Lower(ext);
    assert s[..|stem|] == stem;
    TwoExtensions(l);
  }

  /** What follows the last field: nothing, or a closing comma and copy marks. */
  function Rest(closed: bool, ks: seq<Copy>): (more: seq<string>) { if closed then [Copies(ks)] else [] }

  ghost predicate WellClosed(fields: seq<Field>, closed: bool, ks: seq<Copy>) {
    && fields != [] && (forall k :: k in ks ==> PlainCopy(k))
    && (!closed ==> ks == [] && !EndsWith(Lower(fields[|fields| - 1].text), ".exe"))
  }

  lemma CopiesClose(ks: seq<Copy>)
    requires forall k :: k in ks ==> PlainCopy(k)
    ensures var s := Copies(ks); ',' !in s && (s == "" || (s[0] in {' ', '('} && s[|s| - 1] == ')'))
  {
    CopiesText(ks);
    var s := Copies(ks);
    forall ch | ch in s ensures ch != ',' {
      var i :| 0 <= i < |s| && s[i] == ch;
      assert SuffixChar(s[i]);
    }
  }

  lemma NoExtensionLeft(fields: seq<Field>, closed: bool, ks: seq<Copy>, pre: string)
    requires WellClosed(fields, closed, ks) && IsField(fields[|fields| - 1])
    ensures !EndsWith(Lower(pre + Joined(Texts(fields) + Rest(closed, ks))), ".exe")
  {
    var els := Texts(fields) + Rest(closed, ks);
    JoinedEnds(els);
    if closed {
      CopiesClose(ks);
      assert els[|els| - 1] == Copies(ks);
      ClosedEnd(pre, Joined(els), Copies(ks));
    } else {
      assert els[|els| - 1] == fields[|fields| - 1].text;
      SameEnd(pre, Joined(els), fields[|fields| - 1].text);
    }
  }

  lemma ClosedEnd(pre: string, list: string, e: string)
    requires |list| > |e| && list[|list| - |e|..] == e && list[|list| - |e| - 1] == ','
    requires e == "" || e[|e| - 1] == ')'
    ensures !EndsWith(Lower(pre + list), ".exe")
  {
    var s := pre + list;
    assert e != "" ==> list[|list| - 1] == e[|e| - 1];
    assert s[|s| - 1] == list[|list| - 1];
    LastChar(Lower(s), ".exe");
  }

  lemma SameEnd(pre: string, list: string, e: string)
    requires 4 <= |e| <= |list| && list[|list| - |e|..] == e
    ensures EndsWith(Lower(pre + list), ".exe") <==> EndsWith(Lower(e), ".exe")
  {
    var s := pre + list;
    assert forall i :: 0 <= i < |e| ==> s[|s| - |e| + i] == list[|list| - |e| + i] == e[i];
    assert Lower(s)[|s| - 4..] == Lower(e)[|e| - 4..];
  }

  lemma HostFormWhen(c: Codec, pre: string, list: string, ext: string)
    requires |list| >= 5 && Lower(list[..5]) == "host=" && !Occurs(Lower(pre), "host=")
    requires IsExtension(ext) && !EndsWith(Lower(pre + list), ".exe")
    ensures Parsed(c, pre + list + ext) == Some(HostForm(Split(list, ",")))
  {
    var stem := pre + list;
    StripExtension(stem, ext);
    FirstHostTag(pre, list);
    assert stem[|pre|..] == list;
  }

  /** A list of fields is read back exactly: the host first, the others in any order, empty
      ones left out, tags in any letter case. A closing comma keeps copy marks out of the
      last value; without copy marks it may be left out, unless the last value itself ends
      like an extension. */
  lemma HostNameRoundTrip(c: Codec, pre: string, fields: seq<Field>, closed: bool, ks: seq<Copy>, ext: string, lic: CustomServer)
    requires WellClosed(fields, closed, ks) && fields[0].tag == Host && Writes(fields, lic)
    requires !Occurs(Lower(pre), "host=") && IsExtension(ext)
    ensures Parsed(c, pre + Joined(Texts(fields) + Rest(closed, ks)) + ext) == Some(lic)
  {
    var els := Texts(fields) + Rest(closed, ks);
    CopiesClose(ks);
    assert IsField(fields[0]) && IsField(fields[|fields| - 1]);
    BeginsWithHost(fields[0], els);
    NoExtensionLeft(fields, closed, ks, pre);
    assert forall i :: 0 <= i < |fields| ==> ',' !in Texts(fields)[i];
    ListIsRead(c, pre, els, ext);
    FieldsAreRead(fields, Rest(closed, ks), lic);
  }

  lemma ListIsRead(c: Codec, pre: string, els: seq<string>, ext: string)
    requires els != [] && forall i :: 0 <= i < |els| ==> ',' !in els[i]
    requires |Joined(els)| >= 5 && Lower(Joined(els)[..5]) == "host=" && !Occurs(Lower(pre), "host=")
    requires IsExtension(ext) && !EndsWith(Lower(pre + Joined(els)), ".exe")
    ensures Parsed(c, pre + Joined(els) + ext) == Some(HostForm(els))
  {
    HostFormWhen(c, pre, Joined(els), ext);
    SplitJoined(els);
  }

  lemma BeginsWithHost(f: Field, els: seq<string>)
    requires IsField(f) && f.tag == Host && els != [] && els[0] == f.text
    ensures |Joined(els)| >= 5 && Lower(Joined(els)[..5]) == "host="
  {
    JoinedEnds(els);
    assert Joined(els)[..5] == f.text[..5];
  }

  /** Such a name: one field, a closing comma and a copy mark. */
  lemma HostNameExample(c: Codec)
    ensures Parsed(c, "onedesk-" + "Host=a,(1)" + ".EXE") == Some(CustomServer("", "a", "", ""))
  {
    var f, k := Field(Host, "Host=a"), Copy(false, "1");
    ExampleWrites(f, k);
    ExampleAround();
    assert Joined(Texts([f]) + Rest(true, [k])) == "Host=a,(1)" by {
      OneCopyMark(k);
      assert Texts([f]) + Rest(true, [k]) == ["Host=a", "(1)"];
      JoinTwo("Host=a", "(1)");
    }
    HostNameRoundTrip(c, "onedesk-", [f], true, [k], ".EXE", CustomServer("", "a", "", ""));
  }

  lemma ExampleWrites(f: Field, k: Copy)
    requires f == Field(Host, "Host=a") && k == Copy(false, "1")
    ensures WellClosed([f], true, [k]) && Writes([f], CustomServer("", "a", "", ""))
  {
    assert f.text[..5] == "Host=" && Lower("Host=") == "host=" && f.text[5..] == "a";
    assert [f][0].tag == Host;
  }

  lemma ExampleAround()
    ensures IsExtension(".EXE") && !Occurs(Lower("onedesk-"), "host=")
  {
    assert Lower(".EXE") == ".exe";
    assert Lower("onedesk-") == "onedesk-";
    forall i ensures !At("onedesk-", i, "host=") { NoHostWithoutH("onedesk-", i); }
  }

  lemma OneCopyMark(k: Copy)
    requires k == Copy(false, "1")
    ensures Copies([k]) == "(1)"
  {
    assert [k][1..] == [] && Copies([]) == "";
    assert "" + "(" + "1" + ")" == "(1)";
    assert Copies([k]) == CopyText(k) + "" == CopyText(k);
  }

  lemma NoHostWithoutH(s: string, i: int)
    requires forall j :: 0 <= j < |s| ==> s[j] != 'h'
    ensures !At(s, i, "host=")
  {
    if 0 <= i && i + 5 <= |s| { assert s[i..i + 5][0] == s[i]; }
  }

  lemma JoinTwo(a: string, b: string)
    ensures Joined([a, b]) == a + "," + b
  {
    assert [a, b][1..] == [b];
  }
}
