/** The quiz's static data: the four houses, answers, questions and the fixed
    question bank, as declared at the top of mini-app/components/quiz.tsx. */
module QuizData {

  /** The `house` state starts out as null and is set once a result exists. */
  datatype Option<T> = None | Some(value: T)

  /** The closed set of four houses an answer can point to. */
  datatype House = Gryffindor | Hufflepuff | Ravenclaw | Slytherin

  /** A button's label and the house it scores for. */
  datatype Answer = Answer(text: string, house: House)

  /** A prompt with its answers, in display order. */
  datatype Question = Question(prompt: string, answers: seq<Answer>)

  /** The houses in the order in which the score record lists its keys; that
      order is the enumeration order of the top houses in the tie-break. */
  const HouseOrder: seq<House> := [Gryffindor, Hufflepuff, Ravenclaw, Slytherin]

  /** Position of a house in HouseOrder. */
  function Rank(h: House): (k: nat)
    ensures k < |HouseOrder| && HouseOrder[k] == h
  {
    match h
    case Gryffindor => 0
    case Hufflepuff => 1
    case Ravenclaw => 2
    case Slytherin => 3
  }

  /** The fixed question bank: five questions, one answer per house each,
      always listed Gryffindor, Hufflepuff, Ravenclaw, Slytherin. */
  const Questions: seq<Question> := [
    Question("How do you handle problems?", [
      Answer("Face it bravely and deal with it head-on.", Gryffindor),
      Answer("Take your time, stay patient, and work through it steadily.", Hufflepuff),
      Answer("Analyze it carefully and think of the smartest solution.", Ravenclaw),
      Answer("Look for a clever shortcut or angle that others might miss.", Slytherin)]),
    Question("What do your friends appreciate most about you?", [
      Answer("Your bravery and willingness to defend them.", Gryffindor),
      Answer("Your loyalty and dependability.", Hufflepuff),
      Answer("Your intelligence and great ideas.", Ravenclaw),
      Answer("Your ambition and confidence.", Slytherin)]),
    Question("Which activity sounds most fun?", [
      Answer("Adventuring or physical challenges.", Gryffindor),
      Answer("Helping others or working on a group task.", Hufflepuff),
      Answer("Solving puzzles, researching, or learning something new.", Ravenclaw),
      Answer("Debating, leading, or planning to win something big.", Slytherin)]),
    Question("How do you react when you see unfairness happening?", [
      Answer("Stand up for the person immediately.", Gryffindor),
      Answer("Support them quietly and consistently.", Hufflepuff),
      Answer("Think of a logical, effective way to help.", Ravenclaw),
      Answer("Strategize how to turn the situation around in a smart way.", Slytherin)]),
    Question("What kind of success matters most to you?", [
      Answer("Doing what’s right, even when it’s difficult.", Gryffindor),
      Answer("Knowing I helped others and stayed true.", Hufflepuff),
      Answer("Understanding something deeply or mastering a skill.", Ravenclaw),
      Answer("Achieving a powerful position or reaching a big goal.", Slytherin)])
  ]

  /** Every question of the bank offers exactly one answer per house, in
      HouseOrder. */
  lemma BankOffersEachHouseOnce()
    ensures |Questions| == 5
    ensures forall i :: 0 <= i < |Questions| ==>
      |Questions[i].answers| == |HouseOrder| &&
      forall k :: 0 <= k < |HouseOrder| ==> Questions[i].answers[k].house == HouseOrder[k]
  {
  }
}
