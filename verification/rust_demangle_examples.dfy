/** Worked examples of the simplifier, taken from its documented behaviour. */
module RustDemangleExamples {
  import opened TextUtil
  import opened RustDemangle

  lemma HashText()
    ensures IsHash("::h1234567890abcdef")
  {
  }

  /** A full hash is found after a path. */
  lemma HashFound()
    ensures !HashFree("foo::h1234567890abcdef")
  {
    var h := "::h1234567890abcdef";
    assert IsHash(h);
    assert "foo::h1234567890abcdef" == "foo" + h;
    HashFoundAfter("foo", h);
  }

  /** Four hex digits are too few. */
  lemma ShortHashNotFound()
    ensures HashFree("foo::h1234")
  {
    HashFreeShort("foo::h1234");
  }

  /** Upper-case hex digits are not hash digits. */
  lemma UpperCaseHashNotFound()
    ensures HashFree("foo::hABCDEF1234567890")
  {
    var t := "::hABCDEF1234567890";
    HashFreeShort(t[1..]);
    assert t[..19][3] == 'A';
    HashFreeAfterColonless("foo", t);
  }

  /** Without the leading `::` nothing is found. */
  lemma UnprefixedHashNotFound()
    ensures HashFree("h1234567890abcdef")
  {
    HashFreeShort("h1234567890abcdef");
  }

  /** The only `h` of `std::vector<int>::push_back` follows `s`, so it holds no `::h`. */
  lemma VectorHashFree()
    ensures HashFree("std::vector<int>::push_back")
  {
    var s := "std::vector<int>::push_back";
    forall j | 0 <= j < |s| - 1 ensures !(s[j] == "::h"[1] && s[j + 1] == "::h"[2]) {
      if j != 20 {
        assert s[j + 1] != 'h';
      }
    }
    PairAbsent(s, "::h", 1);
    HashFreeWithoutMarker(s);
  }

  /** `std::vector<int>::push_back` holds no `f` (in every `core::` path) and no `l` (in both `alloc::` paths). */
  lemma VectorNoPath()
    ensures NoPathFrom("std::vector<int>::push_back", 0)
  {
    var s := "std::vector<int>::push_back";
    assert 'f' !in s && 'l' !in s;
    forall j | 0 <= j < |Shortenings| ensures !Contains(s, Shortenings[j].0) {
      if j < 3 {
        assert Shortenings[j].0[11] == 'f';
        Absent(s, Shortenings[j].0, 11);
      } else if j == 3 {
        assert Shortenings[j].0[6] == 'f';
        Absent(s, Shortenings[j].0, 6);
      } else {
        assert Shortenings[j].0[1] == 'l';
        Absent(s, Shortenings[j].0, 1);
      }
    }
  }

  /** Text without a Rust symbol, C++ template paths included, passes through unchanged. */
  lemma PassThroughExamples()
    ensures Simplify("") == ""
    ensures Simplify("push rbp") == "push rbp"
    ensures Simplify("std::vector<int>::push_back") == "std::vector<int>::push_back"
  {
    ColonFreeUntouched("");
    ColonFreeUntouched("push rbp");
    VectorHashFree();
    VectorNoPath();
    SimplifyFixedPoint("std::vector<int>::push_back");
  }

  // Path shortening, one documented case per path. Each case is stated on
  // the table entry: `Shortenings[0].0 + "call_once"` is
  // `core::ops::function::FnOnce::call_once`, and so on.

  // Each example first collects, away from `Simplify`, the facts that
  // `PathShortened` asks of its text.

  lemma FnOnceHashFree()
    ensures HashFree(Shortenings[0].0 + "call_once")
  {
    var s := Shortenings[0].0 + "call_once";
    assert 'h' !in s;
    WithoutH(s);
  }

  lemma FnOnceAfter()
    ensures NoPathFrom(Shortenings[0].1 + "call_once", 1)
  {
    var u := Shortenings[0].1 + "call_once";
    assert 'r' !in u && 'v' !in u;
    WithoutR(u);
    WithoutV(u);
  }

  lemma FnOnceFacts()
    ensures HashFree(Shortenings[0].0 + "call_once")
    ensures !Contains("call_once", Shortenings[0].0)
    ensures NoPathFrom(Shortenings[0].1 + "call_once", 1)
  {
    FnOnceHashFree();
    FnOnceAfter();
    WithoutColon("call_once");
  }

  /** `core::ops::function::FnOnce::call_once` becomes `FnOnce::call_once`. */
  lemma FnOnceExample()
    ensures Simplify(Shortenings[0].0 + "call_once") == Shortenings[0].1 + "call_once"
  {
    FnOnceFacts();
    PathShortened(0, "call_once");
  }

  lemma FnMutHashFree()
    ensures HashFree(Shortenings[1].0 + "call_mut")
  {
    var s := Shortenings[1].0 + "call_mut";
    assert 'h' !in s;
    WithoutH(s);
  }

  lemma FnMutNotFnOnce()
    ensures !Contains(Shortenings[1].0 + "call_mut", Shortenings[0].0)
  {
    var s := Shortenings[1].0 + "call_mut";
    assert 'O' !in s;
    WithoutCapitalO(s);
  }

  lemma FnMutAfter()
    ensures NoPathFrom(Shortenings[1].1 + "call_mut", 2)
  {
    var u := Shortenings[1].1 + "call_mut";
    assert 'r' !in u && 'v' !in u;
    WithoutR(u);
    WithoutV(u);
  }

  lemma FnMutFacts()
    ensures HashFree(Shortenings[1].0 + "call_mut")
    ensures !Contains(Shortenings[1].0 + "call_mut", Shortenings[0].0)
    ensures !Contains("call_mut", Shortenings[1].0)
    ensures NoPathFrom(Shortenings[1].1 + "call_mut", 2)
  {
    FnMutHashFree();
    FnMutNotFnOnce();
    FnMutAfter();
    WithoutColon("call_mut");
  }

  /** `core::ops::function::FnMut::call_mut` becomes `FnMut::call_mut`. */
  lemma FnMutExample()
    ensures Simplify(Shortenings[1].0 + "call_mut") == Shortenings[1].1 + "call_mut"
  {
    FnMutFacts();
    PathShortened(1, "call_mut");
  }

  lemma FmtHashFree()
    ensures HashFree(Shortenings[3].0 + "Display")
  {
    var s := Shortenings[3].0 + "Display";
    assert 'h' !in s;
    WithoutH(s);
  }

  lemma FmtNotFunction()
    ensures forall j :: 0 <= j < 3 ==> !Contains(Shortenings[3].0 + "Display", Shortenings[j].0)
  {
    var s := Shortenings[3].0 + "Display";
    assert 'n' !in s;
    WithoutN(s);
  }

  lemma FmtAfter()
    ensures NoPathFrom(Shortenings[3].1 + "Display", 4)
  {
    var u := Shortenings[3].1 + "Display";
    assert 'r' !in u && 'v' !in u;
    WithoutR(u);
    WithoutV(u);
  }

  lemma FmtFacts()
    ensures HashFree(Shortenings[3].0 + "Display")
    ensures forall j :: 0 <= j < 3 ==> !Contains(Shortenings[3].0 + "Display", Shortenings[j].0)
    ensures !Contains("Display", Shortenings[3].0)
    ensures NoPathFrom(Shortenings[3].1 + "Display", 4)
  {
    FmtHashFree();
    FmtNotFunction();
    FmtAfter();
    WithoutColon("Display");
  }

  /** `core::fmt::Display` becomes `fmt::Display`. */
  lemma FmtExample()
    ensures Simplify(Shortenings[3].0 + "Display") == Shortenings[3].1 + "Display"
  {
    FmtFacts();
    PathShortened(3, "Display");
  }

  lemma StringHashFree()
    ensures HashFree(Shortenings[4].0)
  {
    assert 'h' !in Shortenings[4].0;
    WithoutH(Shortenings[4].0);
  }

  lemma StringNotCore()
    ensures forall j :: 0 <= j < 4 ==> !Contains(Shortenings[4].0, Shortenings[j].0)
  {
    assert 'e' !in Shortenings[4].0;
    WithoutE(Shortenings[4].0);
  }

  lemma StringAfter()
    ensures NoPathFrom(Shortenings[4].1, 5)
  {
    assert 'v' !in Shortenings[4].1;
    WithoutV(Shortenings[4].1);
  }

  lemma StringFacts()
    ensures HashFree(Shortenings[4].0)
    ensures forall j :: 0 <= j < 4 ==> !Contains(Shortenings[4].0, Shortenings[j].0)
    ensures NoPathFrom(Shortenings[4].1, 5)
  {
    StringHashFree();
    StringNotCore();
    StringAfter();
  }

  /** `alloc::string::String` becomes `String`. */
  lemma StringExample()
    ensures Simplify(Shortenings[4].0) == Shortenings[4].1
  {
    var s, u := Shortenings[4].0, Shortenings[4].1;
    StringFacts();
    assert s + [] == s && u + [] == u;
    WithoutColon([]);
    PathShortened(4, []);
  }

  lemma VecFacts()
    ensures HashFree(Shortenings[5].0 + "<i32>")
    ensures forall j :: 0 <= j < 5 ==> !Contains(Shortenings[5].0 + "<i32>", Shortenings[j].0)
    ensures !Contains("<i32>", Shortenings[5].0)
  {
    var s := Shortenings[5].0 + "<i32>";
    assert 'h' !in s && 'r' !in s && ':' !in "<i32>";
    WithoutH(s);
    WithoutR(s);
    WithoutColon("<i32>");
  }

  /** `alloc::vec::Vec<i32>` becomes `Vec<i32>`. */
  lemma VecExample()
    ensures Simplify(Shortenings[5].0 + "<i32>") == Shortenings[5].1 + "<i32>"
  {
    VecFacts();
    PathShortened(5, "<i32>");
  }
}
