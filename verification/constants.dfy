/** The static catalogue data of the storefront (constants.tsx). Image
    references are kept as the short photo identifiers of the
    image addresses in `constants.tsx`. */
module Constants {
  import opened Types

  const PIECES: seq<Piece> := [
    Piece("1", "Buda Zen", Estatueta, 1250, "photo-1590422444867-041c5014886f", "Uma peça minimalista para trazer paz."),
    Piece("2", "Caneca Cozy", Caneca, 750, "photo-1514228742587-6b1558fbed39", "Perfeita para o seu chocolate quente."),
    Piece("3", "Prato Astral", Prato, 950, "photo-1520408222757-6f9f95d87d5d", "Design circular moderno."),
    Piece("4", "Vaso Flora", Vaso, 1800, "photo-1485955900006-10f4d324d411", "Elegância para suas plantas."),
    Piece("5", "Gato Curioso", Estatueta, 850, "photo-1513519245088-0e12902e5a38", "Para os amantes de felinos.")
  ]

  const MENU_ITEMS: seq<MenuItem> := [
    MenuItem("e1", "Bruschettas do Pomar", Entradas, "Pão artesanal tostado com tomates cereja.", false),
    MenuItem("e2", "Tábua de Queijos Curados", Entradas, "Seleção de queijos locais.", false),
    MenuItem("p1", "Risotto de Cogumelos Silvestres", Principal, "Arroz arbóreo cremoso com cogumelos.", false),
    MenuItem("p2", "Massa de Verão Bubbles", Principal, "Linguine artesanal com camarões grelhados.", true),
    MenuItem("z1", "Margherita Clássica", Pizzas, "Massa de fermentação lenta.", false),
    MenuItem("z2", "Pesto & Burrata", Pizzas, "Base branca com molho pesto e burrata.", true),
    MenuItem("b1", "Cappuccino de Avelã", Cafes, "Espresso com leite vaporizado e avelã.", false),
    MenuItem("b2", "V60 Craft Brew", Cafes, "Café de especialidade no método V60.", false),
    MenuItem("b3", "Chá Gelado de Hibisco", Bubbles, "Infusão fria de hibisco com pérolas de lichia.", true),
    MenuItem("b4", "Limonada de Lavanda", Artesanais, "Limão siciliano com lavanda e mel.", false),
    MenuItem("b5", "Craft Pilsner Local", Cervejas, "Cerveja artesanal leve e refrescante.", false)
  ]
}
