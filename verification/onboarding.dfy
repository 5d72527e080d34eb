/**
 The onboarding dialogue: the user picks a grade, a class letter, a
 sub-group and a university-day group, and each choice is saved in the
 user's profile as the callback for it arrives.

 Each button's callback data carries the choice after an `=`. The class
 letter keyboard offers ten classes per grade; the profile is created on
 that step if it does not exist yet. The sub-group step maps `группа А` to
 sub-group 0 and anything else to 1, and offers ten university-day groups
 to grade 11 and twelve to everyone else. The last step saves the group
 number before it looks up the sub-group's label, so a profile with an
 unexpected sub-group is saved and then the summary fails.
 */
module Onboarding {
  import opened Outcomes
  import opened Text
  import opened Records

  datatype Button = Button(caption: string, data: string)

  datatype OnboardError =
    | MalformedCallback        // the callback data has no `=`
    | NoProfile                // `users.objects.get` raised `DoesNotExist`
    | NoClassNumber            // the saved class letter has no word to read the grade from
    | NotANumber(text: string) // `int` rejected the university-day group
    | NoSuchGroupLabel(index: int) // the sub-group does not index the two labels

  /** What a handler answers: the next keyboard or text, or the exception it raised. */
  datatype Answer<T> = Done(value: T) | Raised(error: OnboardError)

  /** The profile table after a handler, and its answer: a handler can raise after saving. */
  datatype Step<T> = Step(users: seq<UserProfile>, answer: Answer<T>)

  // ---------------------------------------------------------------------------
  // Class letter

  /** The class buttons of grade 10 and of grade 11, two to a row: a letter and its name in brackets. */
  const Classes10: seq<(string, string)> := [("Μ(мю)", "Σ(сигма)"), ("Ξ(кси)", "Τ(тау)"), ("Ο(омикрон)", "Φ(фи)"), ("Π(пи)", "Х(хи)"), ("Ρ(ро)", "Ψ(пси)")]
  const Classes11: seq<(string, string)> := [("В(бета)", "Η(эта)"), ("Ζ(дзeта)", "Θ(тета)"), ("Г(гамма)", "Ε(эпсилон)"), ("Ι(йота)", "К(каппа)"), ("Δ(дельта)", "Λ(лямбда)")]

  /** `classes_10` for the `10` button, `classes_11` for any other. */
  function ClassLabels(grade: string): seq<(string, string)> {
    if grade == "10" then Classes10 else Classes11
  }

  /** The callback of a class button: the grade and the text before the bracket. */
  function LetterCallback(grade: string, caption: string): string {
    "class_letter=" + grade + " " + Split(caption, "(")[0]
  }

  /** The class letter keyboard of a grade, row by row. */
  function LetterKeyboard(grade: string): (rows: seq<(Button, Button)>)
    ensures |rows| == |ClassLabels(grade)|
    ensures forall k :: 0 <= k < |rows| ==>
              rows[k].0 == Button(ClassLabels(grade)[k].0, LetterCallback(grade, ClassLabels(grade)[k].0)) &&
              rows[k].1 == Button(ClassLabels(grade)[k].1, LetterCallback(grade, ClassLabels(grade)[k].1))
  {
    var captions := ClassLabels(grade);
    seq(|captions|, k requires 0 <= k < |captions| =>
      (Button(captions[k].0, LetterCallback(grade, captions[k].0)), Button(captions[k].1, LetterCallback(grade, captions[k].1))))
  }

  /** A class caption: one letter that is neither a bracket, an `=` nor a space, then its name in brackets. */
  predicate LetterLabel(caption: string) {
    |caption| >= 2 && caption[1] == '(' && caption[0] != '(' && caption[0] != '=' && !IsSpace(caption[0])
  }

  lemma ClassLabelsWellFormed(grade: string)
    ensures forall k :: 0 <= k < |ClassLabels(grade)| ==> LetterLabel(ClassLabels(grade)[k].0) && LetterLabel(ClassLabels(grade)[k].1)
  {
  }

  /** The ten letters of a grade are all different. */
  lemma ClassLettersDistinct(grade: string)
    ensures var ls := ClassLabels(grade);
      forall i, j :: 0 <= i < |ls| && 0 <= j < |ls| ==>
        ls[i].0[0] != ls[j].1[0] && (i != j ==> ls[i].0[0] != ls[j].0[0] && ls[i].1[0] != ls[j].1[0])
  {
  }

  lemma {:induction false} NoCharNoContains(s: string, c: char)
    requires c !in s
    ensures !Contains(s, [c])
    decreases |s|
  {
    if |s| > 0 {
      assert s[..1] == [s[0]];
      assert c !in s[1..];
      NoCharNoContains(s[1..], c);
    }
  }

  /** The part of a class caption before the bracket is its letter. */
  lemma LabelLetter(caption: string)
    requires LetterLabel(caption)
    ensures Split(caption, "(") [0] == caption[..1]
  {
    assert caption == caption[..1] + ['('] + caption[2..];
    SplitAtChar(caption[..1], '(', caption[2..]);
  }

  /** The callback data of a class letter button splits on `=` into the prefix and the class it saves. */
  lemma LetterCallbackSplits(grade: string, caption: string)
    requires LetterLabel(caption) && '=' !in grade
    ensures Split(LetterCallback(grade, caption), "=") == ["class_letter", grade + " " + caption[..1]]
  {
    LabelLetter(caption);
    var cl := grade + " " + caption[..1];
    assert '=' !in cl;
    assert LetterCallback(grade, caption) == "class_letter" + ['='] + cl;
    SplitAtChar("class_letter", '=', cl);
    NoCharNoContains(cl, '=');
    SplitWithoutSeparator(cl, "=");
  }

  /** Profile `p` takes the place of the profile with its id. */
  function Replace(users: seq<UserProfile>, p: UserProfile): seq<UserProfile> {
    seq(|users|, k requires 0 <= k < |users| => if users[k].userId == p.userId then p else users[k])
  }

  /** The profile a new user gets from `get_or_create`: an empty class letter and both groups 0. */
  function NewProfile(userId: int): UserProfile {
    UserProfile(userId, "", 0, 0)
  }

  /** The `class_letter` callback: the profile is fetched or created, then its class letter is saved. */
  function SetClassLetter(users: seq<UserProfile>, userId: int, data: string): Step<seq<Button>> {
    var fields := Split(data, "=");
    if |fields| < 2 then Step(users, Raised(MalformedCallback))
    else
      var cl := fields[1];
      var saved := match FindUser(users, userId)
        case Some(user) => Replace(users, user.(classLetter := cl))
        case None => users + [NewProfile(userId).(classLetter := cl)];
      Step(saved, Done(GroupButtons))
  }

  /** The two sub-group buttons. */
  const GroupButtons: seq<Button> := [Button("группа А", "class_group=группа А"), Button("группа Б", "class_group=группа Б")]

  // ---------------------------------------------------------------------------
  // Sub-group and university-day group

  /** `0 if cl_group == 'группа А' else 1`. */
  function ClassGroupIndex(choice: string): (g: int)
    ensures g == 0 || g == 1
    ensures g == 0 <==> choice == "группа А"
  {
    if choice == "группа А" then 0 else 1
  }

  /** The university-day group buttons, row by row: `(i, i + j)` for `i` from 1 below `top`. */
  function UniversityGroupRows(grade: string): (rows: seq<(int, int)>)
    ensures |rows| == if grade == "11" then 5 else 6
    ensures forall k :: 0 <= k < |rows| ==> rows[k] == (k + 1, k + 1 + |rows|)
  {
    var (top, offset) := if grade == "11" then (6, 5) else (7, 6);
    seq(top - 1, k requires 0 <= k < top - 1 => (k + 1, k + 1 + offset))
  }

  function UniversityGroupButton(n: int): Button {
    Button(IntToString(n), "univer_group=" + IntToString(n))
  }

  function UniversityGroupKeyboard(grade: string): (rows: seq<(Button, Button)>)
    ensures |rows| == |UniversityGroupRows(grade)|
  {
    var rows := UniversityGroupRows(grade);
    seq(|rows|, k requires 0 <= k < |rows| => (UniversityGroupButton(rows[k].0), UniversityGroupButton(rows[k].1)))
  }

  /** The numbers on the university-day group buttons, row by row. */
  function UniversityGroupNumbers(grade: string): (ns: seq<int>)
    ensures |ns| == 2 * |UniversityGroupRows(grade)|
    ensures forall k :: 0 <= k < |ns| ==> ns[k] == (if k % 2 == 0 then UniversityGroupRows(grade)[k / 2].0 else UniversityGroupRows(grade)[k / 2].1)
  {
    var rows := UniversityGroupRows(grade);
    seq(2 * |rows|, k requires 0 <= k < 2 * |rows| => if k % 2 == 0 then rows[k / 2].0 else rows[k / 2].1)
  }

  /**
   Grade 11 is offered the groups 1 to 10 and every other class the groups
   1 to 12, each on exactly one button.
   */
  lemma UniversityGroupsOffered(grade: string)
    ensures var ns := UniversityGroupNumbers(grade);
      var last := if grade == "11" then 10 else 12;
      && (forall n :: n in ns <==> 1 <= n <= last)
      && (forall i, j :: 0 <= i < j < |ns| ==> ns[i] != ns[j])
  {
    var ns := UniversityGroupNumbers(grade);
    var half := |UniversityGroupRows(grade)|;
    forall n | 1 <= n <= 2 * half
      ensures n in ns
    {
      if n <= half {
        assert ns[2 * (n - 1)] == n;
      } else {
        assert ns[2 * (n - 1 - half) + 1] == n;
      }
    }
  }

  /** The `class_group` callback: the sub-group is saved, then the grade is read from the class letter. */
  function SetGroup(users: seq<UserProfile>, userId: int, data: string): Step<seq<(Button, Button)>> {
    var fields := Split(data, "=");
    if |fields| < 2 then Step(users, Raised(MalformedCallback))
    else
      var g := ClassGroupIndex(fields[1]);
      match FindUser(users, userId)
      case None => Step(users, Raised(NoProfile))
      case Some(user) =>
        var saved := Replace(users, user.(groupNumber := g));
        var words := Words(user.classLetter);
        if |words| == 0 then Step(saved, Raised(NoClassNumber))
        else Step(saved, Done(UniversityGroupKeyboard(words[0])))
  }

  /** The two sub-group captions of the summary. */
  const GroupLabels: seq<string> := ["Гр. А", "Гр. Б"]

  /** The summary shown after the last step. */
  function Summary(classLetter: string, groupLabel: string, uGroup: int): string {
    "вы выбрали:\n" + classLetter + " класс\n" + groupLabel + "\n" + IntToString(uGroup) + " группа универдня"
  }

  /**
   The `univer_group` callback: the number is read, the profile fetched and
   the number saved; the summary then indexes the two sub-group captions the
   Python way, negative indices counting from the end.
   */
  function SetUniversityGroup(users: seq<UserProfile>, userId: int, data: string): Step<string> {
    var fields := Split(data, "=");
    if |fields| < 2 then Step(users, Raised(MalformedCallback))
    else match ParseInt(fields[1])
      case None => Step(users, Raised(NotANumber(fields[1])))
      case Some(n) =>
        match FindUser(users, userId)
        case None => Step(users, Raised(NoProfile))
        case Some(user) =>
          var saved := Replace(users, user.(uGroupNumber := n));
          var g := user.groupNumber;
          if 0 <= g < 2 then Step(saved, Done(Summary(user.classLetter, GroupLabels[g], n)))
          else if -2 <= g < 0 then Step(saved, Done(Summary(user.classLetter, GroupLabels[g + 2], n)))
          else Step(saved, Raised(NoSuchGroupLabel(g)))
  }

  // ---------------------------------------------------------------------------
  // Properties

  /** Replacing a profile changes that user's row only. */
  lemma ReplaceSpec(users: seq<UserProfile>, p: UserProfile)
    requires UniqueIds(users) && FindUser(users, p.userId).Some?
    ensures UniqueIds(Replace(users, p))
    ensures FindUser(Replace(users, p), p.userId) == Some(p)
    ensures forall id :: id != p.userId ==> FindUser(Replace(users, p), id) == FindUser(users, id)
  {
    var r := Replace(users, p);
    assert p in r by {
      var u := FindUser(users, p.userId).value;
      var k :| 0 <= k < |users| && users[k] == u;
      assert r[k] == p;
    }
    forall id | id != p.userId
      ensures FindUser(r, id) == FindUser(users, id)
    {
      FindUserReplaced(users, p, id);
    }
    UniqueFind(r, p);
  }

  lemma {:induction false} FindUserReplaced(users: seq<UserProfile>, p: UserProfile, id: int)
    requires id != p.userId
    ensures FindUser(Replace(users, p), id) == FindUser(users, id)
    decreases |users|
  {
    if |users| > 0 {
      assert Replace(users, p)[1..] == Replace(users[1..], p);
      FindUserReplaced(users[1..], p, id);
    }
  }

  /** With unique ids, a profile in the table is the one found for its id. */
  lemma {:induction false} UniqueFind(users: seq<UserProfile>, p: UserProfile)
    requires UniqueIds(users) && p in users
    ensures FindUser(users, p.userId) == Some(p)
    decreases |users|
  {
    if users[0] != p {
      assert UniqueIds(users[1..]) by {
        forall i, j | 0 <= i < j < |users| - 1
          ensures users[1..][i].userId != users[1..][j].userId
        {
          assert users[1..][i] == users[i + 1] && users[1..][j] == users[j + 1];
        }
      }
      var k :| 0 <= k < |users| && users[k] == p;
      assert users[0].userId != p.userId;
      UniqueFind(users[1..], p);
    }
  }

  /**
   Saving a class letter leaves exactly one profile for the user, holding
   the class after the `=`; a new user starts in sub-group 0 and
   university-day group 0, an existing one keeps both groups.
   */
  lemma SetClassLetterSpec(users: seq<UserProfile>, userId: int, data: string)
    requires UniqueIds(users) && |Split(data, "=")| >= 2
    ensures var r := SetClassLetter(users, userId, data);
      var p := FindUser(r.users, userId);
      && UniqueIds(r.users)
      && r.answer == Done(GroupButtons)
      && p.Some? && p.value.classLetter == Split(data, "=")[1]
      && (FindUser(users, userId).None? ==> p.value.groupNumber == 0 && p.value.uGroupNumber == 0)
      && (FindUser(users, userId).Some? ==> p.value.groupNumber == FindUser(users, userId).value.groupNumber &&
                                            p.value.uGroupNumber == FindUser(users, userId).value.uGroupNumber)
      && forall id :: id != userId ==> FindUser(r.users, id) == FindUser(users, id)
  {
    var cl := Split(data, "=")[1];
    match FindUser(users, userId)
    case Some(user) =>
      ReplaceSpec(users, user.(classLetter := cl));
    case None =>
      var p := NewProfile(userId).(classLetter := cl);
      AppendNew(users, p);
  }

  /** Appending a profile with a new id. */
  lemma {:induction false} AppendNew(users: seq<UserProfile>, p: UserProfile)
    requires UniqueIds(users) && FindUser(users, p.userId).None?
    ensures UniqueIds(users + [p])
    ensures FindUser(users + [p], p.userId) == Some(p)
    ensures forall id :: id != p.userId ==> FindUser(users + [p], id) == FindUser(users, id)
    decreases |users|
  {
    if |users| > 0 {
      assert (users + [p])[1..] == users[1..] + [p];
      assert UniqueIds(users[1..]) by {
        forall i, j | 0 <= i < j < |users| - 1
          ensures users[1..][i].userId != users[1..][j].userId
        {
          assert users[1..][i] == users[i + 1] && users[1..][j] == users[j + 1];
        }
      }
      AppendNew(users[1..], p);
    }
    forall i, j | 0 <= i < j < |users| + 1
      ensures (users + [p])[i].userId != (users + [p])[j].userId
    {
      if j == |users| {
        assert users[i] in users;
      }
    }
  }

  /**
   Pressing a class button of either grade saves the grade, a space and the
   letter, so the sub-group step reads the grade back as the class's first
   word and offers that grade's university-day groups.
   */
  lemma ClassButtonSavesGrade(users: seq<UserProfile>, userId: int, grade: string, k: nat, second: bool)
    requires UniqueIds(users) && (grade == "10" || grade == "11") && k < |ClassLabels(grade)|
    ensures var caption := if second then ClassLabels(grade)[k].1 else ClassLabels(grade)[k].0;
      var r := SetClassLetter(users, userId, LetterCallback(grade, caption));
      var p := FindUser(r.users, userId);
      && p.Some? && p.value.classLetter == grade + " " + caption[..1]
      && |Words(p.value.classLetter)| > 0 && Words(p.value.classLetter)[0] == grade
  {
    var caption := if second then ClassLabels(grade)[k].1 else ClassLabels(grade)[k].0;
    ClassLabelsWellFormed(grade);
    ClassCaptionSavesGrade(users, userId, grade, caption);
  }

  /** `ClassButtonSavesGrade` for any well-formed caption. */
  lemma ClassCaptionSavesGrade(users: seq<UserProfile>, userId: int, grade: string, caption: string)
    requires UniqueIds(users) && (grade == "10" || grade == "11") && LetterLabel(caption)
    ensures var r := SetClassLetter(users, userId, LetterCallback(grade, caption));
      var p := FindUser(r.users, userId);
      && p.Some? && p.value.classLetter == grade + " " + caption[..1]
      && |Words(p.value.classLetter)| > 0 && Words(p.value.classLetter)[0] == grade
  {
    LetterCallbackSplits(grade, caption);
    SavesSecondField(users, userId, LetterCallback(grade, caption), grade + " " + caption[..1]);
    GradeIsWord(grade);
    FirstWordIs(FindUser(SetClassLetter(users, userId, LetterCallback(grade, caption)).users, userId).value.classLetter, grade, caption[..1]);
  }

  lemma GradeIsWord(grade: string)
    requires grade == "10" || grade == "11"
    ensures |grade| > 0 && NoSpaces(grade)
  {
  }

  /** The first word of `s`, when `s` is a word, a space and more. */
  lemma FirstWordIs(s: string, word: string, rest: string)
    requires s == word + " " + rest && |word| > 0 && NoSpaces(word)
    ensures |Words(s)| > 0 && Words(s)[0] == word
  {
    WordsOfLeadingWord(word, rest);
  }

  /** The buttons of a two-column keyboard, row by row, left to right. */
  function KeyboardButtons(rows: seq<(Button, Button)>): (bs: seq<Button>)
    ensures |bs| == 2 * |rows|
    ensures forall k :: 0 <= k < |bs| ==> bs[k] == if k % 2 == 0 then rows[k / 2].0 else rows[k / 2].1
  {
    seq(2 * |rows|, k requires 0 <= k < 2 * |rows| => if k % 2 == 0 then rows[k / 2].0 else rows[k / 2].1)
  }

  /**
   Each of the ten buttons of a grade's class keyboard carries callback data
   that splits into the `class_letter` prefix and the grade, a space and the
   button's letter, and no two buttons save the same class.
   */
  lemma LetterKeyboardSavesDistinctClasses(grade: string)
    requires grade == "10" || grade == "11"
    ensures var bs := KeyboardButtons(LetterKeyboard(grade));
      && |bs| == 10
      && (forall k :: 0 <= k < |bs| ==>
            LetterLabel(bs[k].caption) && Split(bs[k].data, "=") == ["class_letter", grade + " " + bs[k].caption[..1]])
      && (forall i, j :: 0 <= i < j < |bs| ==> Split(bs[i].data, "=")[1] != Split(bs[j].data, "=")[1])
  {
    var bs := KeyboardButtons(LetterKeyboard(grade));
    forall k | 0 <= k < |bs|
      ensures LetterLabel(bs[k].caption) && Split(bs[k].data, "=") == ["class_letter", grade + " " + bs[k].caption[..1]]
    {
      ButtonSplits(grade, k);
    }
    forall i, j | 0 <= i < j < |bs|
      ensures Split(bs[i].data, "=")[1] != Split(bs[j].data, "=")[1]
    {
      ButtonClassesDiffer(grade, i, j);
    }
  }

  /** Two different buttons of a grade's class keyboard save different classes. */
  lemma ButtonClassesDiffer(grade: string, i: nat, j: nat)
    requires grade == "10" || grade == "11"
    requires i < j < 2 * |ClassLabels(grade)|
    ensures var bs := KeyboardButtons(LetterKeyboard(grade));
      |Split(bs[i].data, "=")| > 1 && |Split(bs[j].data, "=")| > 1 && Split(bs[i].data, "=")[1] != Split(bs[j].data, "=")[1]
  {
    var bs := KeyboardButtons(LetterKeyboard(grade));
    ButtonSplits(grade, i);
    ButtonSplits(grade, j);
    ButtonLettersDiffer(grade, i, j);
    SecondFieldsDiffer(bs[i].data, bs[j].data, grade, bs[i].caption, bs[j].caption);
  }

  /** Class callbacks whose captions start with different letters save different classes. */
  lemma SecondFieldsDiffer(d1: string, d2: string, grade: string, c1: string, c2: string)
    requires |c1| > 0 && |c2| > 0 && c1[0] != c2[0]
    requires Split(d1, "=") == ["class_letter", grade + " " + c1[..1]]
    requires Split(d2, "=") == ["class_letter", grade + " " + c2[..1]]
    ensures Split(d1, "=")[1] != Split(d2, "=")[1]
  {
    ClassesDiffer(grade, c1[..1], c2[..1]);
  }

  /** Button `k` of a grade's class keyboard has a class caption and data that split into the prefix and its class. */
  lemma ButtonSplits(grade: string, k: nat)
    requires grade == "10" || grade == "11"
    requires k < 2 * |ClassLabels(grade)|
    ensures var b := KeyboardButtons(LetterKeyboard(grade))[k];
      LetterLabel(b.caption) && Split(b.data, "=") == ["class_letter", grade + " " + b.caption[..1]]
  {
    var ls := ClassLabels(grade);
    ClassLabelsWellFormed(grade);
    var b := KeyboardButtons(LetterKeyboard(grade))[k];
    assert b.caption == (if k % 2 == 0 then ls[k / 2].0 else ls[k / 2].1) && b.data == LetterCallback(grade, b.caption);
    LetterCallbackSplits(grade, b.caption);
  }

  /** Classes of one grade with different letters differ. */
  lemma ClassesDiffer(grade: string, a: string, b: string)
    requires |a| == 1 && |b| == 1 && a != b
    ensures grade + " " + a != grade + " " + b
  {
    assert (grade + " " + a)[|grade| + 1] == a[0];
    assert (grade + " " + b)[|grade| + 1] == b[0];
  }

  /** Two different buttons of a grade's class keyboard show different letters. */
  lemma ButtonLettersDiffer(grade: string, i: nat, j: nat)
    requires grade == "10" || grade == "11"
    requires i < j < 2 * |ClassLabels(grade)|
    ensures var bs := KeyboardButtons(LetterKeyboard(grade));
      |bs[i].caption| > 0 && |bs[j].caption| > 0 && bs[i].caption[0] != bs[j].caption[0]
  {
    var ls := ClassLabels(grade);
    ClassLabelsWellFormed(grade);
    ClassLettersDistinct(grade);
    var bs := KeyboardButtons(LetterKeyboard(grade));
    assert bs[i].caption == if i % 2 == 0 then ls[i / 2].0 else ls[i / 2].1;
    assert bs[j].caption == if j % 2 == 0 then ls[j / 2].0 else ls[j / 2].1;
    assert i % 2 == j % 2 ==> i / 2 != j / 2;
  }

  /** Callback data `prefix=value`, with no `=` in either part, splits back into the two. */
  lemma CallbackFields(prefix: string, value: string)
    requires '=' !in prefix && '=' !in value
    ensures Split(prefix + "=" + value, "=") == [prefix, value]
  {
    assert prefix + "=" + value == prefix + ['='] + value;
    SplitAtChar(prefix, '=', value);
    NoCharNoContains(value, '=');
    SplitWithoutSeparator(value, "=");
  }

  /** The callback data of a sub-group button splits into the prefix and the button's caption. */
  lemma GroupCallbackSplits(i: nat)
    requires i < |GroupButtons|
    ensures Split(GroupButtons[i].data, "=") == ["class_group", GroupButtons[i].caption]
  {
    var caption := GroupButtons[i].caption;
    assert GroupButtons[i].data == "class_group" + "=" + caption;
    CallbackFields("class_group", caption);
  }

  /**
   The first sub-group button saves sub-group 0 and the second sub-group 1,
   the indices of their captions in the summary.
   */
  lemma GroupButtonsSave(users: seq<UserProfile>, userId: int, i: nat)
    requires UniqueIds(users) && FindUser(users, userId).Some? && i < |GroupButtons|
    ensures var p := FindUser(SetGroup(users, userId, GroupButtons[i].data).users, userId);
      p.Some? && p.value.groupNumber == i
  {
    GroupCallbackSplits(i);
    SetGroupSpec(users, userId, GroupButtons[i].data);
  }

  /** Callback data whose second `=` field is `cl` saves the class `cl`. */
  lemma SavesSecondField(users: seq<UserProfile>, userId: int, data: string, cl: string)
    requires UniqueIds(users) && |Split(data, "=")| >= 2 && Split(data, "=")[1] == cl
    ensures FindUser(SetClassLetter(users, userId, data).users, userId).Some?
    ensures FindUser(SetClassLetter(users, userId, data).users, userId).value.classLetter == cl
  {
    SetClassLetterSpec(users, userId, data);
  }

  /**
   Saving a sub-group sets the user's sub-group to 0 for `группа А` and to 1
   otherwise, and changes nothing else; the next keyboard depends on the
   class's first word.
   */
  lemma SetGroupSpec(users: seq<UserProfile>, userId: int, data: string)
    requires UniqueIds(users) && |Split(data, "=")| >= 2 && FindUser(users, userId).Some?
    ensures var r := SetGroup(users, userId, data);
      var before := FindUser(users, userId).value;
      && UniqueIds(r.users)
      && FindUser(r.users, userId) == Some(before.(groupNumber := ClassGroupIndex(Split(data, "=")[1])))
      && (forall id :: id != userId ==> FindUser(r.users, id) == FindUser(users, id))
      && (r.answer.Raised? <==> |Words(before.classLetter)| == 0)
      && (r.answer.Done? ==> r.answer.value == UniversityGroupKeyboard(Words(before.classLetter)[0]))
  {
    var user := FindUser(users, userId).value;
    ReplaceSpec(users, user.(groupNumber := ClassGroupIndex(Split(data, "=")[1])));
  }

  /** The callback of a university-day group button splits into the prefix and the number, which `int` reads back. */
  lemma UniversityGroupCallbackParses(n: nat)
    ensures Split(UniversityGroupButton(n).data, "=") == ["univer_group", IntToString(n)]
    ensures ParseInt(IntToString(n)) == Some(n)
  {
    var digits := IntToString(n);
    assert '=' !in digits by {
      forall i | 0 <= i < |digits| ensures digits[i] != '=' {
        assert IsDigit(digits[i]);
      }
    }
    assert UniversityGroupButton(n).data == "univer_group" + ['='] + digits;
    SplitAtChar("univer_group", '=', digits);
    NoCharNoContains(digits, '=');
    SplitWithoutSeparator(digits, "=");
    ParseIntToString(n);
  }

  /** A university-day group button's callback saves the number on the button. */
  lemma UniversityGroupButtonSaves(users: seq<UserProfile>, userId: int, n: nat)
    requires UniqueIds(users) && FindUser(users, userId).Some?
    ensures var r := SetUniversityGroup(users, userId, UniversityGroupButton(n).data);
      var before := FindUser(users, userId).value;
      && UniqueIds(r.users)
      && FindUser(r.users, userId) == Some(before.(uGroupNumber := n))
      && (forall id :: id != userId ==> FindUser(r.users, id) == FindUser(users, id))
      && (r.answer.Done? <==> -2 <= before.groupNumber < 2)
  {
    UniversityGroupCallbackParses(n);
    var user := FindUser(users, userId).value;
    ReplaceSpec(users, user.(uGroupNumber := n));
  }

  /** A profile whose sub-group came from the sub-group step always gets its summary. */
  lemma SummaryAfterGroupStep(users: seq<UserProfile>, userId: int, data: string)
    requires FindUser(users, userId).Some? && FindUser(users, userId).value.groupNumber in {0, 1}
    ensures SetUniversityGroup(users, userId, data).answer.Raised? ==>
              SetUniversityGroup(users, userId, data).answer.error.MalformedCallback? ||
              SetUniversityGroup(users, userId, data).answer.error.NotANumber?
  {
  }
}
